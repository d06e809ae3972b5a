# Todo-list store, modelled in Dafny

The repository is a single React widget, `Todo`, whose only behavioural logic is
its task-list store: five handlers that each turn the current `TodoItem[]` into the
next one. This project models that store as pure functions over `seq<Task>` and
proves what the handlers promise.

- `TodoItem.Task` is the `TodoItem` record. `priority` and `recurring` are closed
  enumerations. `dueDate` and `lastCompleted` are optional millisecond timestamps.
- `handleAddTodo` becomes `TodoStore.AddTodo`. The `Date.now()` id is a parameter,
  and so are the form fields.
- `toggleTodo` becomes `TodoStore.ToggleTodo`. The `new Date()` clock reading is a parameter `now`.
- `updateProgress` becomes `TodoStore.UpdateProgress`.
- `deleteTodo` becomes `TodoStore.DeleteTodo`.
- `handleRecurringTasks` becomes `TodoStore.HandleRecurringTasks`, with the clock as a parameter `now`.
- JavaScript's `String.prototype.trim` is modelled in `JsString`, with the
  ECMAScript white-space and line-terminator characters.

Files: `wrappers.dfy` (Option), `js_string.dfy`, `todo_item.dfy` (the record and
the per-task rules), `todo_store.dfy` (the five handlers), `todo_properties.dfy`
(lemmas relating the handlers).

Modelling decisions that follow from the code:

- Ids come from `Date.now()` and can collide, so every id-based statement speaks
  of all tasks carrying the id. `deleteTodo` filters out every such task
  (components/Todo.tsx:105). It removes exactly one task when exactly one task
  carries the id (`TodoStore.DeleteTodo`); under unique ids that holds for every
  present id (`TodoProperties.DeleteRemovesOne`).
- The sweep walks the list it captured. For each due task, it resets every task
  in the current list that carries that task's id. `TodoStore.SweepFold` models
  this walk as written. `TodoStore.SweepFoldIsMap` proves it equal to one map over
  the set of due ids. So a task that shares an id with a due task is reset too.
  Under unique ids, the sweep resets exactly the due tasks
  (`TodoProperties.SweepResetsExactlyDue`).
- The sweep's test that `lastCompleted` is truthy becomes `lastCompleted.Some?`,
  because a `Date` object is always truthy.
- The elapsed time is `Math.floor(ms / 86400000)`. Dafny's `/` with a positive
  divisor rounds down as well, negative differences included.

## Model

| member | source | states |
|---|---|---|
| JsString.Trim | components/Todo.tsx:59 | the trimmed text is an infix of the input with only white space before and after it, a non-empty result starts and ends with a non-space, and it is empty exactly when every character of the input is JavaScript white space |
| TodoItem.ClampProgress | components/Todo.tsx:98 | the stored progress always lies in [0, 100], equals the request when it is in range, and is 0 below the range and 100 above it |
| TodoItem.ShouldResetIffElapsedMs | components/Todo.tsx:36-44 | a task is due for reset exactly when it recurs, has a completion time, and at least 1, 7 or 30 days' worth of milliseconds (daily, weekly, monthly) have passed since then |
| TodoStore.MapIds | components/Todo.tsx:82-90 | the per-id map keeps the length and order, applies the update to every task whose id matches, and leaves every other task equal to what it was |
| TodoStore.AddTodo | components/Todo.tsx:57-72 | blank input leaves the list unchanged; otherwise exactly one task is appended after the unchanged old tasks, incomplete, at progress 0, without completion time, carrying the untrimmed text and the supplied id and fields |
| TodoStore.ToggleTodo | components/Todo.tsx:80-93 | same length; non-matching tasks unchanged; every matching task flips completion, gets progress 100 and completion time now if it became completed, else progress 0 and no completion time, and keeps its other fields |
| TodoStore.UpdateProgress | components/Todo.tsx:95-101 | same length; non-matching tasks unchanged; every matching task gets progress clamped into [0, 100] (the request itself when in range), and its completion flag, completion time and other fields are kept |
| TodoStore.DeleteTodo | components/Todo.tsx:103-106 | a task survives exactly when it was in the list and does not carry the id; the list shrinks by the number of tasks carrying the id |
| TodoStore.DueIds | components/Todo.tsx:35-44 | an id is due exactly when some task in the list carries it and passes the reset test |
| TodoStore.HandleRecurringTasks | components/Todo.tsx:33-55 | same length; a task is reset (incomplete, progress 0, no completion time, other fields kept) exactly when some due task carries its id, and is otherwise unchanged |
| TodoStore.SweepFoldIsMap | components/Todo.tsx:35-54 | walking the captured list and resetting each due task's id in turn equals one map that resets every id due in the captured list |
| TodoProperties.AddThenDelete | components/Todo.tsx:59-72 | adding under an unused id, then deleting that id, gives back the original list (also when the add was refused) |
| TodoProperties.AddKeepsIdsUnique | components/Todo.tsx:60-72 | an add under an unused id keeps all ids distinct |
| TodoProperties.ToggleTwice | components/Todo.tsx:80-93 | two toggles restore every task's completion flag; toggled tasks come back with progress and completion time matching that flag |
| TodoProperties.ToggleTwiceRestoresOpenTasks | components/Todo.tsx:80-93 | when every matching task is incomplete, at 0 and without completion time, a double toggle returns the original list |
| TodoProperties.DeleteAbsent | components/Todo.tsx:104-106 | deleting an id no task carries leaves the list unchanged |
| TodoProperties.DeleteAppend | components/Todo.tsx:104-106 | delete acts piecewise on a concatenation, so the surviving tasks keep their original order |
| TodoProperties.DeleteKeepsMultiplicity | components/Todo.tsx:104-106 | every task without the id occurs in the result exactly as often as in the input, and no task with the id occurs |
| TodoProperties.DeleteIdempotent | components/Todo.tsx:104-106 | after a delete no task carries the id, and a second delete with the same id is a no-op |
| TodoProperties.DeleteRemovesOne | components/Todo.tsx:104-106 | with unique ids, deleting a present id removes exactly one task |
| TodoProperties.DeleteKeepsIdsUnique | components/Todo.tsx:104-106 | delete keeps all ids distinct |
| TodoProperties.SweepResetsDue | components/Todo.tsx:36-51 | every task that passes the reset test is reset by the sweep |
| TodoProperties.SweepResetsExactlyDue | components/Todo.tsx:36-51 | with unique ids the sweep resets exactly the due tasks and leaves all others unchanged, preserving length and order |
| TodoProperties.NothingDueAfterSweep | components/Todo.tsx:36-49 | right after a sweep no task passes the reset test at the same clock reading |
| TodoProperties.SweepIdempotent | components/Todo.tsx:33-55 | sweeping twice with the same clock reading gives the same list as sweeping once |
| TodoProperties.ResetThresholdExamples | components/Todo.tsx:36-43 | daily: due after 2 days, not after 12 hours; weekly: not after 6 days, due after 7; monthly: not after 29 days, due after 30; non-recurring: never due, at any clock reading |
| TodoProperties.NoResetBeforeCompletion | components/Todo.tsx:38-43 | a completion time later than the clock reading never makes a task due |
| TodoProperties.AddKeepsWellFormed | components/Todo.tsx:60-71 | add keeps every task's progress in [0, 100] and its completion time present exactly while it is completed |
| TodoProperties.ToggleKeepsWellFormed | components/Todo.tsx:84-89 | toggle keeps that invariant |
| TodoProperties.UpdateProgressKeepsWellFormed | components/Todo.tsx:97-99 | progress update keeps that invariant |
| TodoProperties.DeleteKeepsWellFormed | components/Todo.tsx:105 | delete keeps that invariant |
| TodoProperties.SweepKeepsWellFormed | components/Todo.tsx:48-50 | the sweep keeps that invariant |
| TodoProperties.MapsKeepIdsUnique | components/Todo.tsx:82-99 | toggle, progress update and the sweep keep all ids distinct |
| TodoProperties.BuyMilkScenario | components/Todo.tsx:57-106 | add "Buy milk" gives one open task at 0; toggle completes it at 100; setting 30 keeps it completed at 30; delete empties the list |

## Left out

- Rendering, Tailwind class strings and the styles module (components/Todo.tsx:108-263, styles/todo.styles.ts): presentation only.
- Form-field state and clearing the fields after an add (components/Todo.tsx:18-23, 73-76): UI wiring. The field values become parameters of `AddTodo`.
- The hourly `setInterval`/`clearInterval` effect (components/Todo.tsx:28-31): timer and lifecycle plumbing. Only the sweep it calls is modelled.
- React's `setTodos` batching and the sweep's stale closure: the sweep is modelled as reading and writing one list.
- `Date` objects, `new Date()` and `Date.now()`: replaced by integer-millisecond parameters. `dueDate` is carried as an opaque optional timestamp.
- `parseInt` and the NaN and fractional behaviour of `Math.min`/`Math.max` (components/Todo.tsx:242, 98): progress requests are integers.
- Task text is a sequence of Unicode scalar values, so JavaScript strings holding unpaired UTF-16 surrogates are not represented; what `trim` strips is unaffected, since every white-space character lies in the Basic Multilingual Plane.
- types/todo.types.ts: a type declaration and suggestion lists that the component does not import.
