# Gym tracker: date-keyed record store and its cache

This project is a Dafny model of the storage core of the gym/task tracker web app
(`src/App.jsx`). The app keeps two collections, each keyed by a calendar day
(`YYYY-MM-DD`):

- **workouts**: day ↦ exercises, each `{name, sets: [{reps, weight}]}`;
- **tasks**: day ↦ tasks, each `{text, completed}`.

Each collection is held twice. There is an in-memory cache (the component's
`workouts` / `tasks` state), which the calendar and the lists render from. There
is also a durable IndexedDB table (Dexie), which stores records
`{id: day, date: day, exercises | taskList}`.

Every mutation changes one day's sequence in the cache. It then writes the whole
sequence back with `put`. When the sequence has become empty it instead deletes
the record and removes the day from the cache.

- `records.dfy` (module `Records`): the entities and the pure sequence edits.
  These are append, remove-at-index (the `filter` the source uses), toggle one
  task, overwrite one field of one set, and the `trim()` test on task text.
- `tables.dfy` (module `Tables`): a table is a map from primary key to record. A
  cache is a map from day to sequence. This module holds `put` and `delete`,
  `toArray`, and the load that keys rows by their `date`. It also holds the
  agreement invariant `InSync` and the record lifecycle, with lemmas about them.
- `tracker.dfy` (module `Tracker`): the component as a class. It has the two
  caches, the two tables and the two drafts as fields, and one method per
  operation. `Valid()` says that the caches agree with the tables. `Lifecycle()`
  says that every record sits under its own date and that no record or cache
  entry is empty. Two walk-through methods at the end add an exercise, add and tick a
  task and export; then delete the only exercise of a day and show that an
  unnamed draft is ignored.

The outcome of each storage call is a boolean parameter `ok`. When it is false
the table is not written, and the cache is not rolled back (`src/App.jsx:63-66`,
`87-89`). Every mutation method promises:

- `Lifecycle()` is preserved unconditionally;
- `Valid()` is preserved when the write succeeds.

`Valid()` implies that the calendar markers `hasWorkout` / `hasTasks` are true
exactly for the days that have a stored record.

Details of the code the model keeps:

- Deleting from a day with no entries throws: `workouts[dateKey]` /
  `tasks[dateKey]` is `undefined` at `src/App.jsx:153` and `192`, so
  `DeleteExercise` and `DeleteTask` require the day to be in the cache.
- The add paths set the cache before writing (`src/App.jsx:139-144`,
  `171-176`). The delete paths write first and set the cache afterwards
  (`157-162`, `196-201`). The method bodies keep that order.
- The saved exercise name is tested only for being non-empty (`name` truthy at
  `src/App.jsx:134`), not trimmed. Task text is tested with `trim()`
  (`src/App.jsx:166`) but stored untrimmed (`169`).

## Model

| member | source | states |
|---|---|---|
| `Records.Append` | src/App.jsx:118 | `[...s, x]` is one longer than `s`, keeps `s` as its prefix and ends with `x` |
| `Records.RemoveAt` | src/App.jsx:129 | `filter((_, k) => k !== i)` removes exactly entry `i` and keeps the order of the rest; an index that names no entry returns the sequence unchanged |
| `Records.RemoveAtUndoesAppend` | src/App.jsx:151-153 | removing the entry just appended gives back the earlier sequence |
| `Records.RemoveAtEmpty` | src/App.jsx:155 | the filtered sequence is empty exactly when the input was empty, or had one entry and that entry was removed |
| `Records.ToggleAt` | src/App.jsx:185 | flipping task `i` keeps the length, the text of task `i` and every other task, and negates `completed` of task `i` |
| `Records.ToggleTwiceRestores` | src/App.jsx:183-188 | toggling the same task twice restores the list |
| `Records.UpdateSetAt` | src/App.jsx:122-126 | `sets[i][f] = v` changes only field `f` of set `i`; the length and every other set are unchanged |
| `Records.UpdateSetLastWins` | src/App.jsx:122-126 | of two updates to the same field of the same set, the later one wins |
| `Records.TrimEmptyIffBlank` | src/App.jsx:166 | `trim()` yields the empty string exactly when the text is empty or all ECMAScript white space |
| `Tables.OrEmpty` | src/App.jsx:136 | `cache[d] \|\| []` is non-empty exactly when the calendar marker `cache[d]?.length > 0` is on; in a cache with no empty entries it is `[]` exactly for the days the cache does not hold |
| `Tables.Put` | src/App.jsx:56-60 | `put` stores `{id: d, date: d, entries}` under key `d`, adds `d` to the keys and leaves every other record unchanged |
| `Tables.Delete` | src/App.jsx:86 | `delete(d)` removes key `d` only; every other record is unchanged |
| `Tables.Entries` | src/App.jsx:34-42 | the cache a load produces from a well-keyed table: the same keys, each mapped to its record's entries |
| `Tables.SyncedMarkers` | src/App.jsx:251-252 | when cache and table agree, `cache[d]?.length > 0` holds exactly when a record for `d` is stored, and that record holds the cached sequence |
| `Tables.ReloadRestoresCache` | src/App.jsx:29-51 | reloading from a table that agrees with the cache reproduces the cache |
| `Tables.LoadedIsInSync` | src/App.jsx:29-51 | the cache loaded from a well-keyed table with no empty records agrees with that table |
| `Tables.Settle` | src/App.jsx:152-156 | the cache side of a mutation: the day is set to the new sequence, or removed when that sequence is empty; other days are unchanged |
| `Tables.Persist` | src/App.jsx:155-160 | the table side of a mutation: afterwards the day has a record exactly when its new sequence is non-empty, that record is `{id: d, date: d, entries}`, and every other record is unchanged |
| `Tables.SettlePersistKeepSync` | src/App.jsx:151-202 | applying the same new sequence to cache and table keeps them in agreement |
| `Tables.SettlePersistKeepLifecycle` | src/App.jsx:54-98 | applying a sequence, with or without the table write, keeps records keyed by their date and leaves no empty record or cache entry |
| `Tables.UndoAppend` | src/App.jsx:133-163 | appending an entry to a day and then removing that last entry restores the cache, for a new day and for an existing one |
| `Tables.ToArray` | src/App.jsx:31-32 | `toArray()` returns every record of the table exactly once, one per key |
| `Tables.IndexByDate` | src/App.jsx:35-37 | the `forEach` keys the cache by each row's `date`; every date that occurs is a key and maps to the entries of the last row carrying it |
| `Tables.LoadTable` | src/App.jsx:31-42 | read plus `forEach`: the cache's keys are the stored dates, and for a table whose records are keyed by date the cache is exactly each day's entries |
| `Tables.SingleRecordArray` | src/App.jsx:212-217 | a table holding one record reads back as exactly that one record |
| `Tracker.Tracker.constructor` | src/App.jsx:16-21 | both caches start as `{}`, both drafts are empty, and the tables hold whatever was stored before |
| `Tracker.Tracker.HasWorkout` | src/App.jsx:251 | when the caches agree with the tables, `hasWorkout` is true exactly for days with a stored workout record |
| `Tracker.Tracker.HasTasks` | src/App.jsx:252 | when the caches agree with the tables, `hasTasks` is true exactly for days with a stored task record |
| `Tracker.Tracker.SyncedMarkersWhenValid` | src/App.jsx:251-252 | under `Valid()`, both calendar markers match record presence in the tables |
| `Tracker.Tracker.LoadAllData` | src/App.jsx:29-51 | on success each cache is keyed by the stored dates and, for well-keyed tables, equals each day's entries; when both tables are well keyed and hold no empty record, the caches then agree with the tables; on failure the caches keep their value (`{}` after mounting) |
| `Tracker.Tracker.SaveWorkoutToDB` | src/App.jsx:54-67 | a successful write `put`s `{id: d, date: d, exercises}`; a failed one leaves the table as it was |
| `Tracker.Tracker.SaveTasksToDB` | src/App.jsx:69-82 | a successful write `put`s `{id: d, date: d, taskList}`; a failed one leaves the table as it was |
| `Tracker.Tracker.DeleteWorkoutFromDB` | src/App.jsx:84-90 | a successful delete removes the day's workout record; a failed one leaves the table as it was |
| `Tracker.Tracker.DeleteTasksFromDB` | src/App.jsx:92-98 | a successful delete removes the day's task record; a failed one leaves the table as it was |
| `Tracker.Tracker.SetDraftName` | src/App.jsx:364 | typing a name changes only the draft's name |
| `Tracker.Tracker.SetNewTask` | src/App.jsx:474 | typing task text sets the new-task input |
| `Tracker.Tracker.AddSet` | src/App.jsx:115-120 | `addSet` appends one `{reps: '', weight: ''}` to the draft's sets |
| `Tracker.Tracker.UpdateSet` | src/App.jsx:122-126 | `updateSet(i, f, v)` changes only field `f` of the draft's set `i` |
| `Tracker.Tracker.RemoveSet` | src/App.jsx:128-131 | `removeSet(i)` removes only the draft's set `i` and keeps the order of the others |
| `Tracker.Tracker.SaveExercise` | src/App.jsx:133-149 | an empty name or zero sets changes nothing; otherwise the draft is appended at the end of the day's exercises (absent day as `[]`), the full sequence is `put`, every other day and the task side are unchanged, and the draft is reset; agreement and lifecycle are kept |
| `Tracker.Tracker.DeleteExercise` | src/App.jsx:151-163 | exercise `i` is removed with the rest kept in order; an empty result removes the day from cache and table, otherwise the rest is `put`; agreement and lifecycle are kept |
| `Tracker.Tracker.AddTask` | src/App.jsx:165-181 | blank text changes nothing; otherwise `{text, completed: false}` with the untrimmed text is appended, the whole list is `put` and the input cleared; agreement and lifecycle are kept |
| `Tracker.Tracker.ToggleTask` | src/App.jsx:183-188 | only task `i`'s `completed` flips; the list is `put` again and never deleted; agreement and lifecycle are kept |
| `Tracker.Tracker.DeleteTask` | src/App.jsx:190-202 | task `i` is removed with the rest kept in order; an empty result removes the day from cache and table, otherwise the rest is `put`; agreement and lifecycle are kept |
| `Tracker.Tracker.ExportData` | src/App.jsx:210-219 | the snapshot lists each table's records, every record exactly once, read from the tables and not from the caches; a failed read produces no snapshot |

## Left out

- Rendering (JSX, the calendar grid, the tabs and modals), the modal flags and the `dbStatus` messages with their timers. These are presentation state with nothing to verify.
- Dexie/IndexedDB and `async`/`await`. Each table is a map and `put`/`delete` are map updates. A storage failure is the `ok` parameter. Interleavings of concurrent asynchronous calls are not modelled: each operation runs to completion before the next starts.
- `formatDate`, `getDaysInMonth` and `changeMonth` depend on the JavaScript `Date` library and time zones. The selected day is passed in as a `DateKey` string.
- The export's `exportDate` timestamp, `JSON.stringify`, the Blob/anchor download and the backup file name.
- Tables.ToArray: does not state the primary-key order in which Dexie returns rows, only that every record appears exactly once.
- Tracker.Tracker.UpdateSet and Tracker.Tracker.ToggleTask: the source assigns into set and task objects that are shared with earlier state (a shallow copy). The model uses values, so that aliasing is not represented; only the observable new state is.
- The close-button handlers of the two dialogs, which also reset the drafts (`src/App.jsx:353-356` for the exercise draft, `463-466` for the task input), are not part of this model.
- Tracker.Tracker.ToggleTask: requires the day and task `i` to exist; the code throws a TypeError otherwise (`src/App.jsx:185`), and that throw is not modelled.
- Tracker.Tracker.UpdateSet: requires set `i` to exist in the draft; the code throws a TypeError otherwise (`src/App.jsx:124`), and that throw is not modelled.
- Tracker.Tracker.DeleteExercise: requires the day to be in the cache; the code throws on `undefined.filter` otherwise (`src/App.jsx:153`), and that throw is not modelled.
- Tracker.Tracker.DeleteTask: requires the day to be in the cache; the code throws on `undefined.filter` otherwise (`src/App.jsx:192`), and that throw is not modelled.
