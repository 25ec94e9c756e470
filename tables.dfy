/** The two durable tables (`workouts`, `tasks`) and the in-memory caches built
    from them. A table holds records `{id, date, <entries>}` under their
    primary key `id`; a cache maps a date to the entry sequence. Both
    collections share this shape, so it is stated once for any entry type. */
module Tables {
  import opened Records

  /** A stored row: `{id, date, exercises}` or `{id, date, taskList}`. */
  datatype Record<E> = Record(id: DateKey, date: DateKey, entries: seq<E>)

  /** A table, keyed by its primary key `id`. */
  type Table<E> = map<DateKey, Record<E>>

  /** A cache: the component's `workouts` or `tasks` state object. */
  type Cache<E> = map<DateKey, seq<E>>

  /** `cache[d] || []`: an absent date reads as the empty sequence. The day
      list the view renders is non-empty exactly when the calendar marker is
      on, and in a cache with no empty entries it is empty exactly for the
      days the cache does not hold. */
  function OrEmpty<E>(cache: Cache<E>, d: DateKey): (r: seq<E>)
    ensures |r| > 0 <==> HasEntries(cache, d)
    ensures NoEmptyEntries(cache) ==> (r == [] <==> d !in cache)
  {
    if d in cache then cache[d] else []
  }

  /** `cache[d]?.length > 0`: the calendar marker `hasWorkout` / `hasTasks`. */
  predicate HasEntries<E>(cache: Cache<E>, d: DateKey)
  {
    d in cache && |cache[d]| > 0
  }

  /** `table.put({id: d, date: d, <entries>: s})`: insert or replace by key. */
  function Put<E>(table: Table<E>, d: DateKey, s: seq<E>): (t: Table<E>)
    ensures t.Keys == table.Keys + {d}
    ensures t[d].id == d && t[d].date == d && t[d].entries == s
    ensures forall k :: k in table && k != d ==> t[k] == table[k]
  {
    table[d := Record(d, d, s)]
  }

  /** `table.delete(d)`: removing an absent key changes nothing. */
  function Delete<E>(table: Table<E>, d: DateKey): (t: Table<E>)
    ensures t.Keys == table.Keys - {d}
    ensures forall k :: k in t ==> t[k] == table[k]
  {
    table - {d}
  }

  /** Every record sits under its own date: `id == date == key`. */
  ghost predicate KeyedByDate<E>(table: Table<E>)
  {
    forall d :: d in table ==> table[d].id == d && table[d].date == d
  }

  /** No record holds an empty sequence. */
  ghost predicate NoEmptyRecords<E>(table: Table<E>)
  {
    forall d :: d in table ==> |table[d].entries| > 0
  }

  /** No cache entry is an empty sequence. */
  ghost predicate NoEmptyEntries<E>(cache: Cache<E>)
  {
    forall d :: d in cache ==> |cache[d]| > 0
  }

  /** The cache and the table agree: a date has a record exactly when the
      cache holds a non-empty sequence for it, and that record is
      `{id: d, date: d, entries: cache[d]}`. */
  ghost predicate InSync<E>(cache: Cache<E>, table: Table<E>)
  {
    && cache.Keys == table.Keys
    && forall d :: d in table ==> |cache[d]| > 0 && table[d] == Record(d, d, cache[d])
  }

  /** The dates the records carry (`item.date`), which the load keys by. */
  ghost function DatesOf<E>(table: Table<E>): set<DateKey>
  {
    set d | d in table :: table[d].date
  }

  /** What a load of a well-keyed table produces: each date to its entries. */
  function Entries<E>(table: Table<E>): (cache: Cache<E>)
    ensures cache.Keys == table.Keys
    ensures forall d :: d in table ==> cache[d] == table[d].entries
  {
    map d | d in table :: table[d].entries
  }

  /** When the cache and the table agree, the calendar markers are true
      exactly for the dates that have a stored record, and that record holds
      the cached sequence. */
  lemma SyncedMarkers<E>(cache: Cache<E>, table: Table<E>, d: DateKey)
    requires InSync(cache, table)
    ensures HasEntries(cache, d) <==> d in table
    ensures d in table ==> table[d].entries == cache[d] && table[d].id == d
  {
  }

  /** Reloading from a table that agrees with the cache gives the cache back:
      nothing the session showed is lost on restart. */
  lemma ReloadRestoresCache<E>(cache: Cache<E>, table: Table<E>)
    requires InSync(cache, table)
    ensures Entries(table) == cache
  {
  }

  /** A freshly loaded cache agrees with a table whose records are keyed by
      their date and are non-empty. */
  lemma LoadedIsInSync<E>(table: Table<E>)
    requires KeyedByDate(table) && NoEmptyRecords(table)
    ensures InSync(Entries(table), table)
  {
  }

  /** The cache side of every mutation: set `d` to `s`, or remove the key
      when `s` is empty (`delete updated[d]`). */
  function Settle<E>(cache: Cache<E>, d: DateKey, s: seq<E>): (c: Cache<E>)
    ensures s == [] ==> c.Keys == cache.Keys - {d}
    ensures s != [] ==> c.Keys == cache.Keys + {d} && c[d] == s
    ensures forall k :: k in cache && k != d ==> c[k] == cache[k]
  {
    if s == [] then cache - {d} else cache[d := s]
  }

  /** The table side of every mutation: `put` the sequence, or `delete` the
      record when the sequence is empty. Afterwards the day has a record
      exactly when its new sequence is non-empty, and no other record moves. */
  function Persist<E>(table: Table<E>, d: DateKey, s: seq<E>): (t: Table<E>)
    ensures d in t <==> s != []
    ensures s != [] ==> t[d] == Record(d, d, s)
    ensures forall k :: k != d ==> (k in t <==> k in table) && (k in table ==> t[k] == table[k])
  {
    if s == [] then Delete(table, d) else Put(table, d, s)
  }

  /** Applying the same new sequence to both sides keeps them in agreement. */
  lemma SettlePersistKeepSync<E>(cache: Cache<E>, table: Table<E>, d: DateKey, s: seq<E>)
    requires InSync(cache, table)
    ensures InSync(Settle(cache, d, s), Persist(table, d, s))
  {
  }

  /** Applying a sequence never breaks the record lifecycle, whether or not
      the table write happens: records stay keyed by date, and neither side
      ever holds an empty sequence. */
  lemma SettlePersistKeepLifecycle<E>(cache: Cache<E>, table: Table<E>, d: DateKey, s: seq<E>)
    requires KeyedByDate(table) && NoEmptyRecords(table) && NoEmptyEntries(cache)
    ensures KeyedByDate(Persist(table, d, s)) && NoEmptyRecords(Persist(table, d, s))
    ensures NoEmptyEntries(Settle(cache, d, s))
  {
  }

  /** Appending to a date and then removing that last entry restores the
      cache, whether the date was new or already had entries. */
  lemma {:induction false} UndoAppend<E>(cache: Cache<E>, d: DateKey, x: E)
    requires NoEmptyEntries(cache)
    ensures var s := Append(OrEmpty(cache, d), x);
            var added := Settle(cache, d, s);
            Settle(added, d, RemoveAt(added[d], |s| - 1)) == cache
  {
    var s := Append(OrEmpty(cache, d), x);
    var added := Settle(cache, d, s);
    RemoveAtUndoesAppend(OrEmpty(cache, d), x);
    var back := Settle(added, d, RemoveAt(added[d], |s| - 1));
    assert back.Keys == cache.Keys;
  }

  /** `rows` lists the records of `table`, one per key, each exactly once,
      in the order `keys` gives. */
  ghost predicate ListsTable<E>(rows: seq<Record<E>>, table: Table<E>, keys: seq<DateKey>)
  {
    && |keys| == |rows| == |table|
    && (forall j :: 0 <= j < |rows| ==> keys[j] in table && rows[j] == table[keys[j]])
    && (forall d :: d in table ==> d in keys)
    && (forall j, j' :: 0 <= j < j' < |keys| ==> keys[j] != keys[j'])
  }

  /** `rows` is what `table.toArray()` may return. */
  ghost predicate IsArrayOf<E>(rows: seq<Record<E>>, table: Table<E>)
  {
    exists keys :: ListsTable(rows, table, keys)
  }

  /** `table.toArray()`: every record of the table, once each. */
  method ToArray<E>(table: Table<E>) returns (rows: seq<Record<E>>, ghost keys: seq<DateKey>)
    ensures |rows| == |table|
    ensures ListsTable(rows, table, keys)
  {
    var remaining := table.Keys;
    rows, keys := [], [];
    while remaining != {}
      invariant remaining <= table.Keys
      invariant |keys| == |rows|
      invariant forall j :: 0 <= j < |rows| ==> keys[j] in table && rows[j] == table[keys[j]]
      invariant forall d :: d in table ==> d in keys || d in remaining
      invariant forall j :: 0 <= j < |keys| ==> keys[j] !in remaining
      invariant forall j, j' :: 0 <= j < j' < |keys| ==> keys[j] != keys[j']
      invariant |rows| + |remaining| == |table|
      decreases remaining
    {
      var d :| d in remaining;
      rows, keys := rows + [table[d]], keys + [d];
      remaining := remaining - {d};
    }
  }

  /** Row `j` is the last row of `rows` that carries its date. */
  ghost predicate LastOfDate<E>(rows: seq<Record<E>>, j: int)
    requires 0 <= j < |rows|
  {
    forall j' :: j < j' < |rows| ==> rows[j'].date != rows[j].date
  }

  /** `rows.forEach(item => { obj[item.date] = item.<entries>; })`: every date
      that occurs becomes a key, and it maps to the entries of the last row
      that carries it. */
  method IndexByDate<E>(rows: seq<Record<E>>) returns (cache: Cache<E>)
    ensures cache.Keys == set j | 0 <= j < |rows| :: rows[j].date
    ensures forall j :: 0 <= j < |rows| && LastOfDate(rows, j) ==> cache[rows[j].date] == rows[j].entries
  {
    cache := map[];
    for n := 0 to |rows|
      invariant cache.Keys == set j | 0 <= j < n :: rows[j].date
      invariant forall j :: 0 <= j < n && (forall j' :: j < j' < n ==> rows[j'].date != rows[j].date) ==>
                  cache[rows[j].date] == rows[j].entries
    {
      cache := cache[rows[n].date := rows[n].entries];
    }
  }

  /** `table.toArray()` followed by the `forEach` that keys the rows by date:
      the cache has one key per stored date, and for a table whose records
      are keyed by their date it is exactly `Entries(table)`. */
  method LoadTable<E>(table: Table<E>) returns (cache: Cache<E>)
    ensures cache.Keys == DatesOf(table)
    ensures KeyedByDate(table) ==> cache == Entries(table)
  {
    var rows, keys := ToArray(table);
    cache := IndexByDate(rows);
    assert cache.Keys == DatesOf(table) by {
      forall d | d in DatesOf(table) ensures d in cache {
        var k :| k in table && table[k].date == d;
        assert k in keys;
        var j :| 0 <= j < |keys| && keys[j] == k;
        assert rows[j].date == d;
      }
    }
    if KeyedByDate(table) {
      forall j | 0 <= j < |rows| ensures LastOfDate(rows, j) {
        forall j' | j < j' < |rows| ensures rows[j'].date != rows[j].date {
          assert rows[j'].date == keys[j'] && rows[j].date == keys[j];
        }
      }
      forall d | d in table ensures cache[d] == table[d].entries {
        var j :| 0 <= j < |keys| && keys[j] == d;
        assert rows[j].date == d;
      }
    }
  }

  /** A table with a single record exports as that one record. */
  lemma {:induction false} SingleRecordArray<E>(rows: seq<Record<E>>, d: DateKey, r: Record<E>)
    requires IsArrayOf(rows, map[d := r])
    ensures rows == [r]
  {
  }
}
