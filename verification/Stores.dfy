/**
 * The two stores of mininet_ai/runtime/state.py: one stages a copy of its
 * entries, the other edits rows in place inside a transaction and rolls back.
 */
module Stores {
  import opened Basics
  import opened SharedState

  /** A caller's view of its own namespaces: live entries only. */
  function Snapshot(store: Store, access: Access): (view: Store) {
    map k | k in store && !store[k].deleted && Readable(access, k) :: store[k]
  }

  predicate Readable(access: Access, key: Key) {
    exists scope :: scope in access.limits && access.Space(scope) == key.space
  }

  class InMemoryStore {
    var entries: Store

    constructor ()
      ensures entries == map[]
    {
      entries := map[];
    }

    /** Validates, stages every update on a copy, and publishes the copy at the end. */
    method Apply(access: Access, updates: seq<Update>, clock: Clock) returns (r: Result<seq<Change>, StateError>)
      modifies this
      ensures (entries, r) == SharedState.Apply(old(entries), access, updates, clock)
    {
      var defect := ValidateUpdates(access, updates);
      if defect.Some? {
        return Err(defect.value);
      }
      SoundBatchScopes(access, updates);
      var staged := StageAll(entries, access, updates, clock);
      if staged.Err? {
        return Err(staged.error);
      }
      entries := staged.value.0;
      r := Ok(staged.value.1);
    }
  }

  /** Stages the updates in order on a copy of the entries, up to the first error. */
  method StageAll(entries: Store, access: Access, updates: seq<Update>, clock: Clock)
    returns (r: Result<(Store, seq<Change>), StateError>)
    requires forall u :: u in updates ==> u.scope in access.limits
    ensures r == Staged(entries, access, updates, clock)
  {
    var staged := entries;
    var changes: seq<Change> := [];
    for i := 0 to |updates|
      invariant Staged(entries, access, updates[..i], clock) == Ok((staged, changes))
    {
      assert updates[..i + 1][..i] == updates[..i];
      assert updates[i] in updates;
      var step := StageUpdate(staged, access, updates[i], clock(i));
      if step.Err? {
        StagedStops(entries, access, updates, clock, i + 1);
        return Err(step.error);
      }
      staged := step.value.0;
      changes := changes + [step.value.1];
    }
    assert updates[..|updates|] == updates;
    r := Ok((staged, changes));
  }

  /** One iteration over the staged copy: expectation, presence, capacity, new entry. */
  method StageUpdate(staged: Store, access: Access, u: Update, now: int)
    returns (r: Result<(Store, Change), StateError>)
    requires u.scope in access.limits
    ensures var defect := UpdateDefect(staged, access, u);
            r == (if defect.Some? then Err(defect.value)
                  else Ok((staged[access.KeyOf(u.scope, u.name) := NewEntry(staged, access, u, now)],
                           ChangeOf(staged, access, u))))
  {
    var key := access.KeyOf(u.scope, u.name);
    var visible := Visible(staged, key);
    var check := CheckExpected(u.expected, visible);
    if check.Some? {
      return Err(check.value);
    }
    if u.operation.Delete? && visible.None? {
      return Err(EntryMissing);
    }
    if u.operation.Set? && visible.None? {
      var live := set k | k in staged && k.space == access.Space(u.scope) && !staged[k].deleted;
      assert live == LiveKeys(staged, access.Space(u.scope));
      if |live| >= access.limits[u.scope] {
        return Err(CapacityExceeded);
      }
    }
    r := Ok((staged[key := NewEntry(staged, access, u, now)], ChangeOf(staged, access, u)));
  }

  /** Checks scopes and duplicate targets before any lock is taken. */
  method ValidateUpdates(access: Access, updates: seq<Update>) returns (defect: Option<StateError>)
    ensures defect == BatchDefect(access, updates)
  {
    var identities: set<(Scope, string)> := {};
    for i := 0 to |updates|
      invariant BatchDefect(access, updates[..i]).None?
      invariant forall s, n ::
        (s, n) in identities <==> exists j :: 0 <= j < i && updates[j].scope == s && updates[j].name == n
    {
      var u := updates[i];
      assert updates[..i + 1][..i] == updates[..i];
      if u.scope !in access.limits {
        DefectStops(access, updates, i + 1);
        return Some(ScopeForbidden);
      }
      if (u.scope, u.name) in identities {
        var j :| 0 <= j < i && updates[j].scope == u.scope && updates[j].name == u.name;
        assert SameTarget(updates[..i + 1][j], u);
        DefectStops(access, updates, i + 1);
        return Some(DuplicateUpdate);
      }
      identities := identities + {(u.scope, u.name)};
      assert forall j :: 0 <= j < i ==> updates[..i + 1][j] == updates[j];
    }
    assert updates[..|updates|] == updates;
    defect := None;
  }

  /** The first error of a batch is final. */
  lemma {:induction false} DefectStops(access: Access, updates: seq<Update>, n: nat)
    requires n <= |updates|
    requires BatchDefect(access, updates[..n]).Some?
    ensures BatchDefect(access, updates) == BatchDefect(access, updates[..n])
    decreases |updates|
  {
    if n == |updates| {
      assert updates[..n] == updates;
    } else {
      var m := |updates| - 1;
      assert updates[..m][..n] == updates[..n];
      DefectStops(access, updates[..m], n);
    }
  }

  lemma {:induction false} StagedStops(store: Store, access: Access, updates: seq<Update>, clock: Clock, n: nat)
    requires n <= |updates|
    requires forall u :: u in updates ==> u.scope in access.limits
    requires Staged(store, access, updates[..n], clock).Err?
    ensures Staged(store, access, updates, clock) == Staged(store, access, updates[..n], clock)
    decreases |updates|
  {
    if n == |updates| {
      assert updates[..n] == updates;
    } else {
      var m := |updates| - 1;
      assert updates[..m][..n] == updates[..n];
      StagedStops(store, access, updates[..m], clock, n);
    }
  }

  // ------------------------------------------------------------- row table

  /** One row of the shared_state table; the value column is null for a tombstone. */
  datatype Row = Row(key: Key, value: Option<Json>, version: nat, deleted: bool, updatedBy: string, updatedAt: int)

  type Table = seq<Row>

  /** The primary key, and the null value column of exactly the tombstones. */
  ghost predicate ValidTable(rows: Table) {
    && (forall i, j :: 0 <= i < j < |rows| ==> rows[i].key != rows[j].key)
    && (forall i :: 0 <= i < |rows| ==> (rows[i].deleted <==> rows[i].value.None?))
  }

  function EntryOf(row: Row): Entry {
    Entry(if row.value.Some? then row.value.value else Null, row.version, row.deleted, row.updatedBy, row.updatedAt)
  }

  /** The entries a table stands for. */
  function Contents(rows: Table): Store {
    if rows == [] then map[]
    else Contents(rows[..|rows| - 1])[rows[|rows| - 1].key := EntryOf(rows[|rows| - 1])]
  }

  lemma {:induction false} ContentsAt(rows: Table)
    requires ValidTable(rows)
    ensures forall k :: k in Contents(rows) <==> exists i :: 0 <= i < |rows| && rows[i].key == k
    ensures forall i :: 0 <= i < |rows| ==>
              rows[i].key in Contents(rows) && Contents(rows)[rows[i].key] == EntryOf(rows[i])
  {
    if rows != [] {
      var n := |rows| - 1;
      var rest := rows[..n];
      ContentsAt(rest);
      forall k | k in Contents(rows)
        ensures exists i :: 0 <= i < |rows| && rows[i].key == k
      {
        if k != rows[n].key {
          assert k in Contents(rest);
          var i :| 0 <= i < |rest| && rest[i].key == k;
          assert rows[i].key == k;
        }
      }
      forall i | 0 <= i < |rows|
        ensures rows[i].key in Contents(rows) && Contents(rows)[rows[i].key] == EntryOf(rows[i])
      {
        if i < n {
          assert rest[i] == rows[i];
        }
      }
    }
  }

  /** SELECT ... WHERE key = ? */
  method SelectRow(rows: Table, key: Key) returns (index: Option<nat>)
    ensures index.Some? ==> index.value < |rows| && rows[index.value].key == key
    ensures index.None? ==> forall i :: 0 <= i < |rows| ==> rows[i].key != key
  {
    for i := 0 to |rows|
      invariant forall j :: 0 <= j < i ==> rows[j].key != key
    {
      if rows[i].key == key {
        return Some(i);
      }
    }
    index := None;
  }

  /** SELECT COUNT(*) ... WHERE deleted = 0 */
  /** One of the first `n` rows is a live one with this key in the namespace. */
  ghost predicate SeenLive(rows: Table, n: nat, space: Namespace, k: Key)
    requires n <= |rows|
  {
    k.space == space && exists j :: 0 <= j < n && rows[j].key == k && !rows[j].deleted
  }

  method CountLive(rows: Table, space: Namespace) returns (count: nat)
    requires ValidTable(rows)
    ensures count == |LiveKeys(Contents(rows), space)|
  {
    count := 0;
    ghost var seen: set<Key> := {};
    for i := 0 to |rows|
      invariant forall k :: k in seen <==> SeenLive(rows, i, space, k)
      invariant count == |seen|
    {
      SeenOneMore(rows, i, space);
      if rows[i].key.space == space && !rows[i].deleted {
        count := count + 1;
        seen := seen + {rows[i].key};
      }
    }
    SeenAll(rows, space);
    assert seen == LiveKeys(Contents(rows), space);
  }

  lemma {:induction false} SeenOneMore(rows: Table, n: nat, space: Namespace)
    requires ValidTable(rows) && n < |rows|
    ensures forall k :: SeenLive(rows, n + 1, space, k)
                        <==> SeenLive(rows, n, space, k) || (k == rows[n].key && k.space == space && !rows[n].deleted)
    ensures !SeenLive(rows, n, space, rows[n].key)
  {
  }

  lemma {:induction false} SeenAll(rows: Table, space: Namespace)
    requires ValidTable(rows)
    ensures forall k :: SeenLive(rows, |rows|, space, k) <==> k in LiveKeys(Contents(rows), space)
  {
    ContentsAt(rows);
  }

  /** INSERT ... ON CONFLICT DO UPDATE, given where the key was found. */
  function Upsert(rows: Table, index: Option<nat>, row: Row): Table
    requires index.Some? ==> index.value < |rows|
  {
    if index.Some? then rows[index.value := row] else rows + [row]
  }

  lemma {:induction false} UpsertContents(rows: Table, index: Option<nat>, row: Row)
    requires ValidTable(rows)
    requires index.Some? ==> index.value < |rows| && rows[index.value].key == row.key
    requires index.None? ==> forall i :: 0 <= i < |rows| ==> rows[i].key != row.key
    requires row.deleted <==> row.value.None?
    ensures ValidTable(Upsert(rows, index, row))
    ensures Contents(Upsert(rows, index, row)) == Contents(rows)[row.key := EntryOf(row)]
  {
    if index.None? {
      assert (rows + [row])[..|rows|] == rows;
    } else {
      ReplaceContents(rows, index.value, row);
    }
  }

  lemma {:induction false} ReplaceContents(rows: Table, index: nat, row: Row)
    requires ValidTable(rows)
    requires index < |rows| && rows[index].key == row.key
    ensures Contents(rows[index := row]) == Contents(rows)[row.key := EntryOf(row)]
  {
    var n := |rows| - 1;
    if index < n {
      assert rows[index := row][..n] == rows[..n][index := row];
      ReplaceContents(rows[..n], index, row);
      assert rows[n].key != row.key;
    } else {
      assert rows[index := row][..n] == rows[..n];
    }
  }

  /** What the row of a key says: where it is, its version and whether it counts as absent. */
  method FindEntry(rows: Table, key: Key) returns (found: Option<nat>, version: nat, deleted: bool)
    requires ValidTable(rows)
    ensures found.Some? ==> found.value < |rows| && rows[found.value].key == key
    ensures found.None? ==> forall i :: 0 <= i < |rows| ==> rows[i].key != key
    ensures Visible(Contents(rows), key) == if deleted then None else Some(version)
    ensures NextVersion(Contents(rows), key) == version + 1
  {
    ContentsAt(rows);
    found := SelectRow(rows, key);
    version := if found.Some? then rows[found.value].version else 0;
    deleted := found.None? || rows[found.value].deleted;
  }

  /** The checks of one iteration, in the order of the transaction. */
  method CheckRow(rows: Table, access: Access, u: Update, visible: Option<nat>) returns (defect: Option<StateError>)
    requires ValidTable(rows) && u.scope in access.limits
    requires visible == Visible(Contents(rows), access.KeyOf(u.scope, u.name))
    ensures defect == UpdateDefect(Contents(rows), access, u)
  {
    defect := CheckExpected(u.expected, visible);
    if defect.Some? {
      return;
    }
    if u.operation.Delete? && visible.None? {
      return Some(EntryMissing);
    }
    if u.operation.Set? && visible.None? {
      var count := CountLive(rows, access.Space(u.scope));
      if count >= access.limits[u.scope] {
        return Some(CapacityExceeded);
      }
    }
  }

  /** One update applied to the entries: its change and the new entries, or its error and the old ones. */
  ghost predicate RowApplied(before: Store, after: Store, access: Access, u: Update, now: int,
                             r: Result<Change, StateError>)
    requires u.scope in access.limits
  {
    var defect := UpdateDefect(before, access, u);
    if defect.Some? then r == Err(defect.value) && after == before
    else r == Ok(ChangeOf(before, access, u))
         && after == before[access.KeyOf(u.scope, u.name) := NewEntry(before, access, u, now)]
  }

  class SqliteStore {
    var rows: Table

    ghost predicate Valid()
      reads this
    {
      ValidTable(rows)
    }

    constructor ()
      ensures Valid() && rows == []
    {
      rows := [];
    }

    /** Edits rows one at a time inside a transaction and rolls back on the first error. */
    method Apply(access: Access, updates: seq<Update>, clock: Clock) returns (r: Result<seq<Change>, StateError>)
      requires Valid()
      modifies this
      ensures Valid()
      ensures (Contents(rows), r) == SharedState.Apply(old(Contents(rows)), access, updates, clock)
      ensures r.Err? ==> rows == old(rows)
    {
      var defect := ValidateUpdates(access, updates);
      if defect.Some? {
        return Err(defect.value);
      }
      SoundBatchScopes(access, updates);
      var committed := rows;
      ghost var start := Contents(rows);
      var changes: seq<Change> := [];
      for i := 0 to |updates|
        invariant Valid()
        invariant forall u :: u in updates[..i] ==> u.scope in access.limits
        invariant Staged(start, access, updates[..i], clock) == Ok((Contents(rows), changes))
      {
        assert updates[..i + 1][..i] == updates[..i];
        assert updates[i] in updates;
        var outcome := ApplyRow(access, updates[i], clock(i));
        if outcome.Err? {
          StagedStops(start, access, updates, clock, i + 1);
          rows := committed;
          return Err(outcome.error);
        }
        changes := changes + [outcome.value];
      }
      assert updates[..|updates|] == updates;
      r := Ok(changes);
    }

    /** One iteration of the transaction: select, check, count, upsert. */
    method ApplyRow(access: Access, u: Update, now: int) returns (r: Result<Change, StateError>)
      requires Valid()
      requires u.scope in access.limits
      modifies this
      ensures Valid()
      ensures RowApplied(old(Contents(rows)), Contents(rows), access, u, now, r)
    {
      var key := access.KeyOf(u.scope, u.name);
      var found, version, deleted := FindEntry(rows, key);
      var defect := CheckRow(rows, access, u, if deleted then None else Some(version));
      if defect.Some? {
        return Err(defect.value);
      }
      var row := Row(key, if u.operation.Set? then Some(u.operation.value) else None,
                     version + 1, u.operation.Delete?, access.agent, now);
      UpsertContents(rows, found, row);
      r := Ok(Change(u.scope, u.name, u.operation, version + 1));
      rows := Upsert(rows, found, row);
    }

    /** SELECT the live rows of every namespace the caller may read. */
    method ReadSnapshot(access: Access) returns (view: Store)
      requires Valid()
      ensures view == Snapshot(Contents(rows), access)
    {
      view := map[];
      for i := 0 to |rows|
        invariant view == Snapshot(Contents(rows[..i]), access)
      {
        SnapshotOneMore(rows, i, access);
        if !rows[i].deleted && Readable(access, rows[i].key) {
          view := view[rows[i].key := EntryOf(rows[i])];
        }
      }
      assert rows[..|rows|] == rows;
    }
  }

  lemma {:induction false} SnapshotOneMore(rows: Table, i: nat, access: Access)
    requires ValidTable(rows) && i < |rows|
    ensures var before := Snapshot(Contents(rows[..i]), access);
            Snapshot(Contents(rows[..i + 1]), access)
            == if !rows[i].deleted && Readable(access, rows[i].key) then before[rows[i].key := EntryOf(rows[i])]
               else before
  {
    assert rows[..i + 1][..i] == rows[..i];
    ContentsPrefixAt(rows, i);
  }

  lemma {:induction false} ContentsPrefixAt(rows: Table, i: nat)
    requires ValidTable(rows)
    requires i < |rows|
    ensures rows[i].key !in Contents(rows[..i])
  {
    ContentsAt(rows[..i]);
  }

  /**
   * The stores driven side by side over any sequence of batches, with every
   * observer reading after each one. Both histories are returned in full.
   */
  method DriveBoth(batches: seq<Batch>, observers: seq<Access>)
    returns (memoryLog: seq<Result<seq<Change>, StateError>>, sqliteLog: seq<Result<seq<Change>, StateError>>,
             memoryViews: seq<Store>, sqliteViews: seq<Store>)
    ensures memoryLog == sqliteLog && |memoryLog| == |batches|
    ensures memoryViews == sqliteViews && |memoryViews| == |batches| * |observers|
    ensures forall i :: 0 <= i < |batches| ==> memoryLog[i] == Outcome(batches, i)
  {
    var memory := new InMemoryStore();
    var sqlite := new SqliteStore();
    memoryLog, sqliteLog, memoryViews, sqliteViews := [], [], [], [];
    for i := 0 to |batches|
      invariant fresh(memory) && fresh(sqlite)
      invariant sqlite.Valid() && Contents(sqlite.rows) == memory.entries
      invariant memory.entries == RunBatches(map[], batches[..i])
      invariant memoryLog == sqliteLog && |memoryLog| == i
      invariant memoryViews == sqliteViews && |memoryViews| == i * |observers|
      invariant forall j :: 0 <= j < i ==> memoryLog[j] == Outcome(batches, j)
    {
      var b := batches[i];
      assert batches[..i + 1][..i] == batches[..i];
      var left := memory.Apply(b.access, b.updates, b.clock);
      var right := sqlite.Apply(b.access, b.updates, b.clock);
      memoryLog, sqliteLog := memoryLog + [left], sqliteLog + [right];
      for j := 0 to |observers|
        invariant sqlite.Valid() && Contents(sqlite.rows) == memory.entries
        invariant memory.entries == RunBatches(map[], batches[..i + 1])
        invariant memoryViews == sqliteViews && |memoryViews| == i * |observers| + j
      {
        var view := sqlite.ReadSnapshot(observers[j]);
        memoryViews := memoryViews + [Snapshot(memory.entries, observers[j])];
        sqliteViews := sqliteViews + [view];
      }
    }
  }

  /** What batch `i` returns when the batches run in order on an empty store. */
  ghost function Outcome(batches: seq<Batch>, i: nat): Result<seq<Change>, StateError>
    requires i < |batches|
  {
    var b := batches[i];
    SharedState.Apply(RunBatches(map[], batches[..i]), b.access, b.updates, b.clock).1
  }
}
