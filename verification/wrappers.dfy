/** Optional values: a task's `dueDate` and `lastCompleted` may be absent. */
module Wrappers {

  datatype Option<+T> = None | Some(value: T)
}
