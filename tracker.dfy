/** The gym/task tracker component: two in-memory caches (`workouts`, `tasks`),
    the two durable tables they mirror, and the two drafts the user edits
    (`newExercise`, `newTask`). Each mutation updates the cache and writes
    the whole sequence of one date back to its table, or deletes that date's
    record when the sequence has become empty.

    Storage calls are asynchronous and may fail. A call's outcome is the
    `ok` parameter: on failure the table is left as it was, and the cache is
    not rolled back. */
module Tracker {
  import opened Records
  import opened Tables

  /** The `exportData` payload without its timestamp. */
  datatype Snapshot = Snapshot(workouts: seq<Record<Exercise>>, tasks: seq<Record<Task>>)

  datatype Option<T> = None | Some(value: T)

  class Tracker {
    /** Cache: date to the exercises of that day. */
    var workouts: Cache<Exercise>
    /** Cache: date to the tasks of that day. */
    var tasks: Cache<Task>
    /** The durable `workouts` table. */
    var workoutTable: Table<Exercise>
    /** The durable `tasks` table. */
    var taskTable: Table<Task>
    /** The exercise being composed (`newExercise`). */
    var draft: Exercise
    /** The task text being typed (`newTask`). */
    var newTask: string

    /** Each cache agrees with its table. Holds after a load and after every
        mutation whose write succeeded. */
    ghost predicate Valid()
      reads this
    {
      InSync(workouts, workoutTable) && InSync(tasks, taskTable)
    }

    /** The record lifecycle, which holds whatever the writes do: every record
        sits under its own date, and no record or cache entry is empty. */
    ghost predicate Lifecycle()
      reads this
    {
      && KeyedByDate(workoutTable) && NoEmptyRecords(workoutTable)
      && KeyedByDate(taskTable) && NoEmptyRecords(taskTable)
      && NoEmptyEntries(workouts) && NoEmptyEntries(tasks)
    }

    /** Mounting the component over whatever the tables already hold: both
        caches start as `{}` and both drafts are empty. */
    constructor (workoutTable: Table<Exercise>, taskTable: Table<Task>)
      ensures this.workoutTable == workoutTable && this.taskTable == taskTable
      ensures workouts == map[] && tasks == map[]
      ensures draft == EmptyDraft && newTask == ""
    {
      this.workoutTable, this.taskTable := workoutTable, taskTable;
      workouts, tasks := map[], map[];
      draft, newTask := EmptyDraft, "";
    }

    /** `hasWorkout` for one calendar day. */
    function HasWorkout(d: DateKey): (b: bool)
      reads this
      ensures Valid() ==> (b <==> d in workoutTable)
    {
      SyncedMarkersWhenValid(d);
      HasEntries(workouts, d)
    }

    /** `hasTasks` for one calendar day. */
    function HasTasks(d: DateKey): (b: bool)
      reads this
      ensures Valid() ==> (b <==> d in taskTable)
    {
      SyncedMarkersWhenValid(d);
      HasEntries(tasks, d)
    }

    lemma SyncedMarkersWhenValid(d: DateKey)
      ensures Valid() ==> (HasEntries(workouts, d) <==> d in workoutTable)
      ensures Valid() ==> (HasEntries(tasks, d) <==> d in taskTable)
    {
      if Valid() {
        SyncedMarkers(workouts, workoutTable, d);
        SyncedMarkers(tasks, taskTable, d);
      }
    }

    /** `loadAllData`: read both tables and key their rows by date. If either
        read fails, neither cache is set. */
    method LoadAllData(ok: bool)
      modifies this
      ensures !ok ==> workouts == old(workouts) && tasks == old(tasks)
      ensures ok ==> workouts.Keys == DatesOf(workoutTable) && tasks.Keys == DatesOf(taskTable)
      ensures ok && KeyedByDate(workoutTable) ==> workouts == Entries(workoutTable)
      ensures ok && KeyedByDate(taskTable) ==> tasks == Entries(taskTable)
      ensures (&& ok
               && KeyedByDate(workoutTable) && NoEmptyRecords(workoutTable)
               && KeyedByDate(taskTable) && NoEmptyRecords(taskTable))
              ==> Valid() && Lifecycle()
      ensures workoutTable == old(workoutTable) && taskTable == old(taskTable)
      ensures draft == old(draft) && newTask == old(newTask)
    {
      if ok {
        var loadedWorkouts := LoadTable(workoutTable);
        var loadedTasks := LoadTable(taskTable);
        workouts, tasks := loadedWorkouts, loadedTasks;
        if KeyedByDate(workoutTable) && NoEmptyRecords(workoutTable) {
          LoadedIsInSync(workoutTable);
        }
        if KeyedByDate(taskTable) && NoEmptyRecords(taskTable) {
          LoadedIsInSync(taskTable);
        }
      }
    }

    /** `saveWorkoutToDB`: `put({id: d, date: d, exercises})`. */
    method SaveWorkoutToDB(d: DateKey, exercises: seq<Exercise>, ok: bool)
      modifies this`workoutTable
      ensures workoutTable == if ok then Put(old(workoutTable), d, exercises) else old(workoutTable)
    {
      if ok {
        workoutTable := Put(workoutTable, d, exercises);
      }
    }

    /** `saveTasksToDB`: `put({id: d, date: d, taskList})`. */
    method SaveTasksToDB(d: DateKey, taskList: seq<Task>, ok: bool)
      modifies this`taskTable
      ensures taskTable == if ok then Put(old(taskTable), d, taskList) else old(taskTable)
    {
      if ok {
        taskTable := Put(taskTable, d, taskList);
      }
    }

    /** `deleteWorkoutFromDB`: `delete(d)`. */
    method DeleteWorkoutFromDB(d: DateKey, ok: bool)
      modifies this`workoutTable
      ensures workoutTable == if ok then Delete(old(workoutTable), d) else old(workoutTable)
    {
      if ok {
        workoutTable := Delete(workoutTable, d);
      }
    }

    /** `deleteTasksFromDB`: `delete(d)`. */
    method DeleteTasksFromDB(d: DateKey, ok: bool)
      modifies this`taskTable
      ensures taskTable == if ok then Delete(old(taskTable), d) else old(taskTable)
    {
      if ok {
        taskTable := Delete(taskTable, d);
      }
    }

    /** Typing into the exercise-name field. */
    method SetDraftName(name: string)
      modifies this`draft
      ensures draft == old(draft).(name := name)
    {
      draft := draft.(name := name);
    }

    /** Typing into the new-task field. */
    method SetNewTask(text: string)
      modifies this`newTask
      ensures newTask == text
    {
      newTask := text;
    }

    /** `addSet`: one blank set at the end of the draft. */
    method AddSet()
      modifies this`draft
      ensures draft == old(draft).(sets := Append(old(draft.sets), BlankSet))
    {
      draft := draft.(sets := Append(draft.sets, BlankSet));
    }

    /** `updateSet(i, f, v)`: field `f` of set `i` becomes `v`. Index `i` must
        name a set: the source dereferences `sets[i]`. */
    method UpdateSet(i: int, f: SetField, v: string)
      requires 0 <= i < |draft.sets|
      modifies this`draft
      ensures draft == old(draft).(sets := UpdateSetAt(old(draft.sets), i, f, v))
    {
      draft := draft.(sets := UpdateSetAt(draft.sets, i, f, v));
    }

    /** `removeSet(i)`: drop set `i`; an index that names no set changes nothing. */
    method RemoveSet(i: int)
      modifies this`draft
      ensures draft == old(draft).(sets := RemoveAt(old(draft.sets), i))
    {
      draft := draft.(sets := RemoveAt(draft.sets, i));
    }

    /** `saveExercise` on the selected day `d`. A draft with an empty name or
        no sets is ignored. Otherwise the draft is appended to the day's
        exercises in the cache first, the whole sequence is `put`, and the
        draft is reset, whether or not the write succeeded. */
    method SaveExercise(d: DateKey, ok: bool)
      modifies this
      ensures old(draft.name) == "" || old(draft.sets) == [] ==>
                && workouts == old(workouts) && workoutTable == old(workoutTable)
                && draft == old(draft)
      ensures old(draft.name) != "" && old(draft.sets) != [] ==>
                var s := Append(OrEmpty(old(workouts), d), old(draft));
                && workouts == old(workouts)[d := s]
                && workoutTable == (if ok then Put(old(workoutTable), d, s) else old(workoutTable))
                && draft == EmptyDraft
      ensures tasks == old(tasks) && taskTable == old(taskTable) && newTask == old(newTask)
      ensures old(Valid()) && ok ==> Valid()
      ensures old(Lifecycle()) ==> Lifecycle()
    {
      if draft.name != "" && |draft.sets| > 0 {
        var updated := Append(OrEmpty(workouts, d), draft);
        ghost var before, stored := workouts, workoutTable;
        workouts := workouts[d := updated];
        SaveWorkoutToDB(d, updated, ok);
        if InSync(before, stored) {
          SettlePersistKeepSync(before, stored, d, updated);
        }
        if KeyedByDate(stored) && NoEmptyRecords(stored) && NoEmptyEntries(before) {
          SettlePersistKeepLifecycle(before, stored, d, updated);
        }
        draft := EmptyDraft;
      }
    }

    /** `deleteExercise(d, i)`: drop exercise `i` of day `d`. When none are
        left the record is deleted, otherwise the rest is `put`; the table is
        written first and the cache set afterwards. An index that names no
        exercise leaves the sequence as it was, and it is `put` again. Day `d`
        must be in the cache: the source filters `workouts[d]`. */
    method DeleteExercise(d: DateKey, i: int, ok: bool)
      requires d in workouts
      modifies this
      ensures var rest := RemoveAt(old(workouts)[d], i);
              && workouts == Settle(old(workouts), d, rest)
              && workoutTable == if ok then Persist(old(workoutTable), d, rest) else old(workoutTable)
      ensures tasks == old(tasks) && taskTable == old(taskTable)
      ensures draft == old(draft) && newTask == old(newTask)
      ensures old(Valid()) && ok ==> Valid()
      ensures old(Lifecycle()) ==> Lifecycle()
    {
      var rest := RemoveAt(workouts[d], i);
      ghost var before, stored := workouts, workoutTable;
      if |rest| == 0 {
        DeleteWorkoutFromDB(d, ok);
        workouts := workouts - {d};
      } else {
        SaveWorkoutToDB(d, rest, ok);
        workouts := workouts[d := rest];
      }
      if InSync(before, stored) {
        SettlePersistKeepSync(before, stored, d, rest);
      }
      if KeyedByDate(stored) && NoEmptyRecords(stored) && NoEmptyEntries(before) {
        SettlePersistKeepLifecycle(before, stored, d, rest);
      }
    }

    /** `addTask` on the selected day `d`. Text that `trim()`s to nothing is
        ignored. Otherwise `{text, completed: false}` is appended with the
        text as typed (not trimmed), the cache is set first, the whole list
        is `put`, and the input is cleared. */
    method AddTask(d: DateKey, ok: bool)
      modifies this
      ensures IsBlank(old(newTask)) ==>
                && tasks == old(tasks) && taskTable == old(taskTable) && newTask == old(newTask)
      ensures !IsBlank(old(newTask)) ==>
                var s := Append(OrEmpty(old(tasks), d), Task(old(newTask), false));
                && tasks == old(tasks)[d := s]
                && taskTable == (if ok then Put(old(taskTable), d, s) else old(taskTable))
                && newTask == ""
      ensures workouts == old(workouts) && workoutTable == old(workoutTable) && draft == old(draft)
      ensures old(Valid()) && ok ==> Valid()
      ensures old(Lifecycle()) ==> Lifecycle()
    {
      TrimEmptyIffBlank(newTask);
      if Trim(newTask) != [] {
        var updated := Append(OrEmpty(tasks, d), Task(newTask, false));
        ghost var before, stored := tasks, taskTable;
        tasks := tasks[d := updated];
        SaveTasksToDB(d, updated, ok);
        if InSync(before, stored) {
          SettlePersistKeepSync(before, stored, d, updated);
        }
        if KeyedByDate(stored) && NoEmptyRecords(stored) && NoEmptyEntries(before) {
          SettlePersistKeepLifecycle(before, stored, d, updated);
        }
        newTask := "";
      }
    }

    /** `toggleTask(d, i)`: flip task `i` of day `d` in the cache, then `put`
        the whole list again. The list never becomes empty, so the record is
        never deleted. Task `i` must exist: the source dereferences it. */
    method ToggleTask(d: DateKey, i: int, ok: bool)
      requires d in tasks && 0 <= i < |tasks[d]|
      modifies this
      ensures tasks == old(tasks)[d := ToggleAt(old(tasks)[d], i)]
      ensures taskTable == if ok then Put(old(taskTable), d, tasks[d]) else old(taskTable)
      ensures workouts == old(workouts) && workoutTable == old(workoutTable)
      ensures draft == old(draft) && newTask == old(newTask)
      ensures old(Valid()) && ok ==> Valid()
      ensures old(Lifecycle()) ==> Lifecycle()
    {
      var toggled := ToggleAt(tasks[d], i);
      ghost var before, stored := tasks, taskTable;
      tasks := tasks[d := toggled];
      SaveTasksToDB(d, toggled, ok);
      if InSync(before, stored) {
        SettlePersistKeepSync(before, stored, d, toggled);
      }
      if KeyedByDate(stored) && NoEmptyRecords(stored) && NoEmptyEntries(before) {
        SettlePersistKeepLifecycle(before, stored, d, toggled);
      }
    }

    /** `deleteTask(d, i)`: drop task `i` of day `d`, deleting the record when
        none are left; the table is written first and the cache set
        afterwards. Day `d` must be in the cache: the source filters
        `tasks[d]`. */
    method DeleteTask(d: DateKey, i: int, ok: bool)
      requires d in tasks
      modifies this
      ensures var rest := RemoveAt(old(tasks)[d], i);
              && tasks == Settle(old(tasks), d, rest)
              && taskTable == if ok then Persist(old(taskTable), d, rest) else old(taskTable)
      ensures workouts == old(workouts) && workoutTable == old(workoutTable)
      ensures draft == old(draft) && newTask == old(newTask)
      ensures old(Valid()) && ok ==> Valid()
      ensures old(Lifecycle()) ==> Lifecycle()
    {
      var rest := RemoveAt(tasks[d], i);
      ghost var before, stored := tasks, taskTable;
      if |rest| == 0 {
        DeleteTasksFromDB(d, ok);
        tasks := tasks - {d};
      } else {
        SaveTasksToDB(d, rest, ok);
        tasks := tasks[d := rest];
      }
      if InSync(before, stored) {
        SettlePersistKeepSync(before, stored, d, rest);
      }
      if KeyedByDate(stored) && NoEmptyRecords(stored) && NoEmptyEntries(before) {
        SettlePersistKeepLifecycle(before, stored, d, rest);
      }
    }

    /** `exportData`: a snapshot of both tables as read from storage, not of
        the caches. A failed read produces nothing. */
    method ExportData(ok: bool) returns (snapshot: Option<Snapshot>)
      ensures ok <==> snapshot.Some?
      ensures ok ==> IsArrayOf(snapshot.value.workouts, workoutTable)
      ensures ok ==> IsArrayOf(snapshot.value.tasks, taskTable)
    {
      if ok {
        var ws, wKeys := ToArray(workoutTable);
        var ts, tKeys := ToArray(taskTable);
        snapshot := Some(Snapshot(ws, ts));
      } else {
        snapshot := None;
      }
    }
  }

  /** A day's workout and task, then the export: one exercise saved, one
      task added and ticked, and the snapshot holding that one workout
      record. */
  method AddAndExportWalkthrough()
  {
    var day := "2024-03-01";
    var app := new Tracker(map[], map[]);

    app.SetDraftName("Squat");
    app.AddSet();
    app.UpdateSet(0, Reps, "5");
    app.UpdateSet(0, Weight, "100");
    var squat := Exercise("Squat", [ExerciseSet("5", "100")]);
    assert app.draft == squat;
    assert OrEmpty(app.workouts, day) == [];
    app.SaveExercise(day, true);
    assert app.workouts[day] == [squat];
    assert app.workoutTable == map[day := Record(day, day, [squat])];
    assert app.HasWorkout(day);

    app.SetNewTask("Buy shoes");
    assert !IsBlank(app.newTask) by { assert !IsWhitespace(app.newTask[0]); }
    assert OrEmpty(app.tasks, day) == [];
    app.AddTask(day, true);
    assert app.tasks[day] == [Task("Buy shoes", false)];
    app.ToggleTask(day, 0, true);
    assert app.tasks[day] == [Task("Buy shoes", true)];

    assert app.workoutTable == map[day := Record(day, day, [squat])];
    var snapshot := app.ExportData(true);
    assert IsArrayOf(snapshot.value.workouts, app.workoutTable);
    SingleRecordArray(snapshot.value.workouts, day, Record(day, day, [squat]));
    assert snapshot.value.workouts == [Record(day, day, [squat])];
  }

  /** Deleting the only exercise of a day removes the day from the cache and
      the table; saving a draft with no name then changes nothing. */
  method DeleteAndIgnoreWalkthrough()
  {
    var day := "2024-03-01";
    var app := new Tracker(map[], map[]);
    app.SetDraftName("Squat");
    app.AddSet();
    assert OrEmpty(app.workouts, day) == [];
    app.SaveExercise(day, true);
    assert app.workouts[day] == [Exercise("Squat", [BlankSet])];

    assert RemoveAt(app.workouts[day], 0) == [];
    app.DeleteExercise(day, 0, true);
    assert day !in app.workouts && day !in app.workoutTable;
    assert !app.HasWorkout(day);

    app.SaveExercise(day, true);
    assert app.workouts == map[] && app.workoutTable == map[];
  }
}
