/**
 Properties relating the store's handlers to each other and to the invariants
 the component keeps: inverses, idempotence, the reset rule, and preservation of
 well-formed tasks and of unique ids.
 */
module TodoProperties {
  import opened Wrappers
  import opened JsString
  import opened TodoItem
  import opened TodoStore

  // ---- add ----

  /** Adding a task under an unused id and then deleting that id gives back the original list. */
  lemma AddThenDelete(ts: seq<Task>, input: string, newId: int, category: string, priority: Priority,
                      labels: seq<string>, dueDate: Option<int>, recurring: Recurring)
    requires !HasId(ts, newId)
    ensures DeleteTodo(AddTodo(ts, input, newId, category, priority, labels, dueDate, recurring), newId) == ts
  {
    DeleteAbsent(ts, newId);
    var r := AddTodo(ts, input, newId, category, priority, labels, dueDate, recurring);
    if !AllSpace(input) {
      assert r == ts + [r[|ts|]];
      DeleteAppend(ts, [r[|ts|]], newId);
      assert DeleteTodo([r[|ts|]], newId) == [];
    }
  }

  /** An add under an unused id keeps the ids unique. */
  lemma AddKeepsIdsUnique(ts: seq<Task>, input: string, newId: int, category: string, priority: Priority,
                          labels: seq<string>, dueDate: Option<int>, recurring: Recurring)
    requires UniqueIds(ts) && !HasId(ts, newId)
    ensures UniqueIds(AddTodo(ts, input, newId, category, priority, labels, dueDate, recurring))
  {
  }

  // ---- toggle ----

  /**
   Toggling twice restores every task's completion flag; the tasks toggled come back
   with progress and completion time matching that flag (the time from the second toggle).
   */
  lemma ToggleTwice(ts: seq<Task>, id: int, now1: int, now2: int)
    ensures var r := ToggleTodo(ToggleTodo(ts, id, now1), id, now2);
      && |r| == |ts|
      && (forall i :: 0 <= i < |ts| ==> r[i].completed == ts[i].completed)
      && (forall i :: 0 <= i < |ts| && ts[i].id != id ==> r[i] == ts[i])
      && (forall i :: 0 <= i < |ts| && ts[i].id == id ==>
            r[i] == ts[i].(progress := if ts[i].completed then 100 else 0,
                           lastCompleted := if ts[i].completed then Some(now2) else None))
  {
  }

  /** A task that is incomplete, untouched and has no completion time (as `add` and the sweep leave it) survives a double toggle unchanged. */
  lemma ToggleTwiceRestoresOpenTasks(ts: seq<Task>, id: int, now1: int, now2: int)
    requires forall i :: 0 <= i < |ts| && ts[i].id == id ==>
      !ts[i].completed && ts[i].progress == 0 && ts[i].lastCompleted == None
    ensures ToggleTodo(ToggleTodo(ts, id, now1), id, now2) == ts
  {
  }

  // ---- delete ----

  /** Deleting an id no task carries changes nothing. */
  lemma {:induction false} DeleteAbsent(ts: seq<Task>, id: int)
    requires !HasId(ts, id)
    ensures DeleteTodo(ts, id) == ts
  {
    if |ts| > 0 {
      assert !HasId(ts[1..], id) by {
        forall i | 0 <= i < |ts[1..]| ensures ts[1..][i].id != id {
          assert ts[1..][i] == ts[i + 1];
        }
      }
      DeleteAbsent(ts[1..], id);
      assert ts == [ts[0]] + ts[1..];
    }
  }

  /** Delete works piecewise on a concatenation, so the surviving tasks keep their relative order. */
  lemma {:induction false} DeleteAppend(a: seq<Task>, b: seq<Task>, id: int)
    ensures DeleteTodo(a + b, id) == DeleteTodo(a, id) + DeleteTodo(b, id)
  {
    if |a| > 0 {
      assert (a + b)[0] == a[0];
      assert (a + b)[1..] == a[1..] + b;
      DeleteAppend(a[1..], b, id);
      if a[0].id != id {
        assert DeleteTodo(a + b, id) == [a[0]] + DeleteTodo(a[1..] + b, id);
        assert DeleteTodo(a, id) == [a[0]] + DeleteTodo(a[1..], id);
      }
    } else {
      assert a + b == b;
    }
  }

  /** Delete keeps every task without the id exactly as often as it occurred, and none with it. */
  lemma {:induction false} DeleteKeepsMultiplicity(ts: seq<Task>, id: int)
    ensures forall t :: multiset(DeleteTodo(ts, id))[t] == (if t.id == id then 0 else multiset(ts)[t])
  {
    if |ts| > 0 {
      DeleteKeepsMultiplicity(ts[1..], id);
      assert ts == [ts[0]] + ts[1..];
      assert multiset(ts) == multiset([ts[0]]) + multiset(ts[1..]);
    }
  }

  /** After a delete no task carries the id, so a second delete of it is a no-op. */
  lemma DeleteIdempotent(ts: seq<Task>, id: int)
    ensures !HasId(DeleteTodo(ts, id), id)
    ensures DeleteTodo(DeleteTodo(ts, id), id) == DeleteTodo(ts, id)
  {
  }

  /** Number of tasks an id occurs on is at most one when ids are unique. */
  lemma {:induction false} CountIdUnique(ts: seq<Task>, id: int)
    requires UniqueIds(ts)
    ensures CountId(ts, id) == (if HasId(ts, id) then 1 else 0)
  {
    if |ts| > 0 {
      var tl := ts[1..];
      assert UniqueIds(tl) by {
        forall i, j | 0 <= i < j < |tl| ensures tl[i].id != tl[j].id {
          assert tl[i] == ts[i + 1] && tl[j] == ts[j + 1];
        }
      }
      CountIdUnique(tl, id);
      assert HasId(ts, id) <==> ts[0].id == id || HasId(tl, id) by {
        if HasId(tl, id) {
          var k :| 0 <= k < |tl| && tl[k].id == id;
          assert ts[k + 1].id == id;
        }
        if HasId(ts, id) && ts[0].id != id {
          var k :| 0 <= k < |ts| && ts[k].id == id;
          assert tl[k - 1].id == id;
        }
      }
    }
  }

  /** With unique ids, deleting a present id removes exactly one task. */
  lemma DeleteRemovesOne(ts: seq<Task>, id: int)
    requires UniqueIds(ts) && HasId(ts, id)
    ensures |DeleteTodo(ts, id)| == |ts| - 1
  {
    CountIdUnique(ts, id);
  }

  /** Delete keeps the ids unique. */
  lemma {:induction false} DeleteKeepsIdsUnique(ts: seq<Task>, id: int)
    requires UniqueIds(ts)
    ensures UniqueIds(DeleteTodo(ts, id))
  {
    if |ts| > 0 {
      var tl := ts[1..];
      assert UniqueIds(tl) by {
        forall i, j | 0 <= i < j < |tl| ensures tl[i].id != tl[j].id {
          assert tl[i] == ts[i + 1] && tl[j] == ts[j + 1];
        }
      }
      DeleteKeepsIdsUnique(tl, id);
      var rest := DeleteTodo(tl, id);
      if ts[0].id != id {
        assert !HasId(tl, ts[0].id) by {
          forall k | 0 <= k < |tl| ensures tl[k].id != ts[0].id {
            assert tl[k] == ts[k + 1];
          }
        }
        var r := [ts[0]] + rest;
        forall i, j | 0 <= i < j < |r| ensures r[i].id != r[j].id {
          assert r[j] == rest[j - 1] && rest[j - 1] in rest && rest[j - 1] in tl;
          if i > 0 {
            assert r[i] == rest[i - 1];
          }
        }
      }
    }
  }

  // ---- recurrence sweep ----

  /** Every due task is reset by the sweep. */
  lemma SweepResetsDue(ts: seq<Task>, now: int, i: int)
    requires 0 <= i < |ts| && ShouldReset(ts[i], now)
    ensures HandleRecurringTasks(ts, now)[i] == Reset(ts[i])
  {
  }

  /** With unique ids, the sweep resets exactly the due tasks and leaves every other task as it was. */
  lemma SweepResetsExactlyDue(ts: seq<Task>, now: int)
    requires UniqueIds(ts)
    ensures var r := HandleRecurringTasks(ts, now);
      && |r| == |ts|
      && forall i :: 0 <= i < |ts| ==> r[i] == (if ShouldReset(ts[i], now) then Reset(ts[i]) else ts[i])
  {
  }

  /** No task is due right after a sweep. */
  lemma NothingDueAfterSweep(ts: seq<Task>, now: int)
    ensures forall i :: 0 <= i < |ts| ==> !ShouldReset(HandleRecurringTasks(ts, now)[i], now)
  {
  }

  /** Sweeping twice with the same clock reading is the same as sweeping once. */
  lemma SweepIdempotent(ts: seq<Task>, now: int)
    ensures HandleRecurringTasks(HandleRecurringTasks(ts, now), now) == HandleRecurringTasks(ts, now)
  {
  }

  /** The reset rule on concrete elapsed times: daily, weekly and monthly tasks on either side of their thresholds. */
  lemma ResetThresholdExamples(t: Task, c: int)
    requires t.lastCompleted == Some(c)
    ensures t.recurring == Daily ==> ShouldReset(t, c + 2 * MsPerDay) && !ShouldReset(t, c + MsPerDay / 2)
    ensures t.recurring == Weekly ==> !ShouldReset(t, c + 6 * MsPerDay) && ShouldReset(t, c + 7 * MsPerDay)
    ensures t.recurring == Monthly ==> !ShouldReset(t, c + 29 * MsPerDay) && ShouldReset(t, c + 30 * MsPerDay)
    ensures t.recurring == NoRecurrence ==> forall now :: !ShouldReset(t, now)
  {
  }

  /** A completion time in the future (a clock set back) never triggers a reset. */
  lemma NoResetBeforeCompletion(t: Task, now: int)
    requires t.lastCompleted.Some? && now < t.lastCompleted.value
    ensures !ShouldReset(t, now)
  {
  }

  // ---- invariants ----

  /** An add keeps every task well formed: progress within [0, 100], completion time present exactly while completed. */
  lemma AddKeepsWellFormed(ts: seq<Task>, input: string, newId: int, category: string, priority: Priority,
                           labels: seq<string>, dueDate: Option<int>, recurring: Recurring)
    requires AllWellFormed(ts)
    ensures AllWellFormed(AddTodo(ts, input, newId, category, priority, labels, dueDate, recurring))
  {
  }

  /** Toggling keeps every task well formed. */
  lemma ToggleKeepsWellFormed(ts: seq<Task>, id: int, now: int)
    requires AllWellFormed(ts)
    ensures AllWellFormed(ToggleTodo(ts, id, now))
  {
  }

  /** A progress update keeps every task well formed. */
  lemma UpdateProgressKeepsWellFormed(ts: seq<Task>, id: int, p: int)
    requires AllWellFormed(ts)
    ensures AllWellFormed(UpdateProgress(ts, id, p))
  {
  }

  /** Deleting keeps every remaining task well formed. */
  lemma DeleteKeepsWellFormed(ts: seq<Task>, id: int)
    requires AllWellFormed(ts)
    ensures AllWellFormed(DeleteTodo(ts, id))
  {
  }

  /** The sweep keeps every task well formed. */
  lemma SweepKeepsWellFormed(ts: seq<Task>, now: int)
    requires AllWellFormed(ts)
    ensures AllWellFormed(HandleRecurringTasks(ts, now))
  {
  }

  /** Toggle, progress update and the sweep change no id, so unique ids stay unique. */
  lemma MapsKeepIdsUnique(ts: seq<Task>, id: int, p: int, now: int)
    requires UniqueIds(ts)
    ensures UniqueIds(ToggleTodo(ts, id, now))
    ensures UniqueIds(UpdateProgress(ts, id, p))
    ensures UniqueIds(HandleRecurringTasks(ts, now))
  {
  }

  /**
   The life of one task: added as "Buy milk", completed, dragged back to 30% (it
   stays completed), then deleted, leaving the list empty.
   */
  lemma BuyMilkScenario(id: int, now: int)
    ensures var ts1 := AddTodo([], "Buy milk", id, "shopping", Low, [], None, NoRecurrence);
      && |ts1| == 1 && ts1[0].text == "Buy milk" && ts1[0].progress == 0 && !ts1[0].completed
      && var ts2 := ToggleTodo(ts1, id, now);
      && ts2[0].completed && ts2[0].progress == 100 && ts2[0].lastCompleted == Some(now)
      && var ts3 := UpdateProgress(ts2, id, 30);
      && ts3[0].completed && ts3[0].progress == 30
      && DeleteTodo(ts3, id) == []
  {
  }
}
