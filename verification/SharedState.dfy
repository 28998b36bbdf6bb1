/**
 * Scoped, versioned shared state of one run: the batch semantics of
 * mininet_ai/runtime/state.py and what every sequence of batches keeps.
 *
 * A deleted key stays behind as a tombstone that carries its last version.
 */
module SharedState {
  import opened Basics

  datatype Scope = RunScope | DeploymentScope

  /** The namespaces of one run; the run id itself is fixed. */
  datatype Namespace = RunSpace | DeploymentSpace(deployment: string)

  datatype Key = Key(space: Namespace, name: string)

  datatype Operation = Set(value: Json) | Delete

  datatype Update = Update(scope: Scope, name: string, operation: Operation, expected: Option<nat>)

  /** Authorized namespaces and capacities of one agent invocation. */
  datatype Access = Access(deployment: string, agent: string, limits: map<Scope, nat>) {
    function Space(scope: Scope): Namespace {
      if scope == RunScope then RunSpace else DeploymentSpace(deployment)
    }

    function KeyOf(scope: Scope, name: string): Key {
      Key(Space(scope), name)
    }
  }

  datatype Entry = Entry(value: Json, version: nat, deleted: bool, updatedBy: string, updatedAt: int)

  type Store = map<Key, Entry>

  datatype Change = Change(scope: Scope, name: string, operation: Operation, version: nat)

  datatype StateError =
    | ScopeForbidden
    | DuplicateUpdate
    | VersionRequired
    | VersionConflict
    | EntryMissing
    | CapacityExceeded

  /** Clock readings, one for each update of a batch. */
  type Clock = nat -> int

  // ---------------------------------------------------------------- batches

  /** The first defect of a batch that can be seen without the store. */
  function BatchDefect(access: Access, updates: seq<Update>): Option<StateError> {
    if updates == [] then None
    else
      var prior := BatchDefect(access, updates[..|updates| - 1]);
      var last := updates[|updates| - 1];
      if prior.Some? then prior
      else if last.scope !in access.limits then Some(ScopeForbidden)
      else if exists i :: 0 <= i < |updates| - 1 && SameTarget(updates[i], last) then Some(DuplicateUpdate)
      else None
  }

  predicate SameTarget(a: Update, b: Update) {
    a.scope == b.scope && a.name == b.name
  }

  /** The version a reader sees: none for an absent or deleted key. */
  function Visible(store: Store, key: Key): Option<nat> {
    if key in store && !store[key].deleted then Some(store[key].version) else None
  }

  function CheckExpected(expected: Option<nat>, visible: Option<nat>): Option<StateError> {
    if expected.None? && visible.Some? then Some(VersionRequired)
    else
      var wanted := if expected.None? then 0 else expected.value;
      if wanted == 0 && visible.None? then None
      else if visible != Some(wanted) then Some(VersionConflict)
      else None
  }

  ghost function LiveKeys(store: Store, space: Namespace): set<Key> {
    set k | k in store && k.space == space && !store[k].deleted
  }

  /** Why one update cannot be applied to the entries staged so far. */
  ghost function UpdateDefect(store: Store, access: Access, u: Update): Option<StateError>
    requires u.scope in access.limits
  {
    var key := access.KeyOf(u.scope, u.name);
    var visible := Visible(store, key);
    var check := CheckExpected(u.expected, visible);
    if check.Some? then check
    else if u.operation.Delete? && visible.None? then Some(EntryMissing)
    else if u.operation.Set? && visible.None?
            && |LiveKeys(store, access.Space(u.scope))| >= access.limits[u.scope] then Some(CapacityExceeded)
    else None
  }

  function NextVersion(store: Store, key: Key): nat {
    if key in store then store[key].version + 1 else 1
  }

  function NewEntry(store: Store, access: Access, u: Update, now: int): Entry {
    Entry(if u.operation.Set? then u.operation.value else Null,
          NextVersion(store, access.KeyOf(u.scope, u.name)),
          u.operation.Delete?, access.agent, now)
  }

  function ChangeOf(store: Store, access: Access, u: Update): Change {
    Change(u.scope, u.name, u.operation, NextVersion(store, access.KeyOf(u.scope, u.name)))
  }

  /** Entries and changes after the whole batch has been staged, or its first error. */
  ghost function Staged(store: Store, access: Access, updates: seq<Update>, clock: Clock)
    : Result<(Store, seq<Change>), StateError>
    requires forall u :: u in updates ==> u.scope in access.limits
  {
    if updates == [] then Ok((store, []))
    else
      var last := updates[|updates| - 1];
      match Staged(store, access, updates[..|updates| - 1], clock)
      case Err(e) => Err(e)
      case Ok((entries, changes)) =>
        var defect := UpdateDefect(entries, access, last);
        if defect.Some? then Err(defect.value)
        else
          Ok((entries[access.KeyOf(last.scope, last.name) := NewEntry(entries, access, last, clock(|updates| - 1))],
              changes + [ChangeOf(entries, access, last)]))
  }

  lemma {:induction false} SoundBatchScopes(access: Access, updates: seq<Update>)
    requires BatchDefect(access, updates).None?
    ensures forall u :: u in updates ==> u.scope in access.limits
    ensures forall i, j :: 0 <= i < j < |updates| ==> !SameTarget(updates[i], updates[j])
  {
    if updates != [] {
      var n := |updates| - 1;
      SoundBatchScopes(access, updates[..n]);
      assert updates == updates[..n] + [updates[n]];
    }
  }

  /** What `apply` returns and leaves behind: all of the batch, or none of it. */
  ghost function Apply(store: Store, access: Access, updates: seq<Update>, clock: Clock)
    : (r: (Store, Result<seq<Change>, StateError>))
  {
    var defect := BatchDefect(access, updates);
    if defect.Some? then (store, Err(defect.value))
    else
      SoundBatchScopes(access, updates);
      match Staged(store, access, updates, clock)
      case Err(e) => (store, Err(e))
      case Ok((entries, changes)) => (entries, Ok(changes))
  }

  // --------------------------------------------------------------- versions

  ghost predicate WellVersioned(store: Store) {
    forall k :: k in store ==> store[k].version >= 1
  }

  /** Each key is either untouched or carries a strictly larger version: none is ever reused. */
  ghost predicate Advances(before: Store, after: Store) {
    forall k :: k in before ==> k in after && (after[k] == before[k] || after[k].version > before[k].version)
  }

  lemma {:induction false} StagedAdvances(store: Store, access: Access, updates: seq<Update>, clock: Clock)
    requires WellVersioned(store)
    requires forall u :: u in updates ==> u.scope in access.limits
    requires Staged(store, access, updates, clock).Ok?
    ensures var entries := Staged(store, access, updates, clock).value.0;
            && WellVersioned(entries)
            && Advances(store, entries)
            && (forall k :: k in entries && (forall u :: u in updates ==> access.KeyOf(u.scope, u.name) != k)
                            ==> k in store && entries[k] == store[k])
  {
    if updates != [] {
      var n := |updates| - 1;
      StagedAdvances(store, access, updates[..n], clock);
      assert updates[n] in updates;
    }
  }

  /** A batch advances versions and leaves every key it does not name alone. */
  lemma {:induction false} ApplyAdvances(store: Store, access: Access, updates: seq<Update>, clock: Clock)
    requires WellVersioned(store)
    ensures var after := Apply(store, access, updates, clock).0;
            && WellVersioned(after)
            && Advances(store, after)
            && (forall k :: k in after && (forall u :: u in updates ==> access.KeyOf(u.scope, u.name) != k)
                            ==> k in store && after[k] == store[k])
  {
    if BatchDefect(access, updates).None? {
      SoundBatchScopes(access, updates);
      if Staged(store, access, updates, clock).Ok? {
        StagedAdvances(store, access, updates, clock);
      }
    }
  }

  // ------------------------------------------------------- meaning of a batch

  /** What readers see: live values without versions. */
  type Values = map<Key, Json>

  function Live(store: Store): Values {
    map k | k in store && !store[k].deleted :: store[k].value
  }

  /** The plain meaning of a batch: assignments and removals, in order. */
  function Effect(values: Values, access: Access, updates: seq<Update>): Values {
    if updates == [] then values
    else
      var last := updates[|updates| - 1];
      var key := access.KeyOf(last.scope, last.name);
      var prior := Effect(values, access, updates[..|updates| - 1]);
      if last.operation.Set? then prior[key := last.operation.value] else prior - {key}
  }

  lemma {:induction false} StagedMeaning(store: Store, access: Access, updates: seq<Update>, clock: Clock)
    requires forall u :: u in updates ==> u.scope in access.limits
    requires Staged(store, access, updates, clock).Ok?
    ensures Live(Staged(store, access, updates, clock).value.0) == Effect(Live(store), access, updates)
  {
    if updates != [] {
      var n := |updates| - 1;
      StagedMeaning(store, access, updates[..n], clock);
      assert updates[n] in updates;
    }
  }

  /** A batch that succeeds does exactly its assignments and removals; one that fails does nothing. */
  lemma {:induction false} ApplyMeaning(store: Store, access: Access, updates: seq<Update>, clock: Clock)
    ensures var (after, outcome) := Apply(store, access, updates, clock);
            Live(after) == if outcome.Ok? then Effect(Live(store), access, updates) else Live(store)
  {
    if BatchDefect(access, updates).None? {
      SoundBatchScopes(access, updates);
      if Staged(store, access, updates, clock).Ok? {
        StagedMeaning(store, access, updates, clock);
      }
    }
  }

  // ------------------------------------------------- batches bound to a snapshot

  /** The expectation of `u` is the version the store shows for its key, zero for absence. */
  predicate ExpectsCurrent(store: Store, access: Access, u: Update) {
    var visible := Visible(store, access.KeyOf(u.scope, u.name));
    u.expected == Some(if visible.Some? then visible.value else 0)
  }

  lemma {:induction false} StagedNeverStale(store: Store, access: Access, updates: seq<Update>, clock: Clock)
    requires BatchDefect(access, updates).None?
    requires forall u :: u in updates ==> u.scope in access.limits
    requires forall u :: u in updates ==> ExpectsCurrent(store, access, u)
    ensures var r := Staged(store, access, updates, clock);
            r.Err? ==> r.error in {EntryMissing, CapacityExceeded}
  {
    if updates != [] {
      var n := |updates| - 1;
      var prior := updates[..n];
      assert forall u :: u in prior ==> u in updates;
      StagedNeverStale(store, access, prior, clock);
      if Staged(store, access, prior, clock).Ok? {
        LastStillCurrent(store, access, updates, clock);
      }
    }
  }

  /** The last update of a sound batch still finds what the store held before the batch. */
  lemma {:induction false} LastStillCurrent(store: Store, access: Access, updates: seq<Update>, clock: Clock)
    requires updates != [] && BatchDefect(access, updates).None?
    requires forall u :: u in updates ==> u.scope in access.limits
    requires forall u :: u in updates ==> ExpectsCurrent(store, access, u)
    requires Staged(store, access, updates[..|updates| - 1], clock).Ok?
    ensures var n := |updates| - 1;
            ExpectsCurrent(Staged(store, access, updates[..n], clock).value.0, access, updates[n])
  {
    var n := |updates| - 1;
    SoundBatchScopes(access, updates);
    assert updates[n] in updates;
    StagedUntouched(store, access, updates[..n], clock, access.KeyOf(updates[n].scope, updates[n].name));
  }

  lemma {:induction false} StagedUntouched(store: Store, access: Access, updates: seq<Update>, clock: Clock, key: Key)
    requires forall u :: u in updates ==> u.scope in access.limits
    requires Staged(store, access, updates, clock).Ok?
    requires forall u :: u in updates ==> access.KeyOf(u.scope, u.name) != key
    ensures var entries := Staged(store, access, updates, clock).value.0;
            (key in entries <==> key in store) && (key in store ==> entries[key] == store[key])
  {
    if updates != [] {
      var n := |updates| - 1;
      StagedUntouched(store, access, updates[..n], clock, key);
      assert updates[n] in updates;
    }
  }

  /**
   * A batch whose expectations are all current can still be refused for being
   * malformed, for a missing entry or for capacity, but never for a version.
   */
  lemma {:induction false} ApplyNeverStale(store: Store, access: Access, updates: seq<Update>, clock: Clock)
    requires forall u :: u in updates ==> ExpectsCurrent(store, access, u)
    requires forall u :: u in updates ==> u.scope in access.limits
    ensures var outcome := Apply(store, access, updates, clock).1;
            outcome.Err? ==> outcome.error in {DuplicateUpdate, EntryMissing, CapacityExceeded}
  {
    if BatchDefect(access, updates).None? {
      StagedNeverStale(store, access, updates, clock);
    } else {
      DefectIsDuplicate(access, updates);
    }
  }

  lemma {:induction false} DefectIsDuplicate(access: Access, updates: seq<Update>)
    requires forall u :: u in updates ==> u.scope in access.limits
    ensures BatchDefect(access, updates) in {None, Some(DuplicateUpdate)}
  {
    if updates != [] {
      DefectIsDuplicate(access, updates[..|updates| - 1]);
    }
  }

  // --------------------------------------------------------------- capacity

  /** An agent's shared-memory configuration, as the plan carries it. */
  datatype SharedMemory = SharedMemory(deployment: string, scopes: set<Scope>, maxEntries: nat)

  predicate Reaches(m: SharedMemory, space: Namespace) {
    match space
    case RunSpace => RunScope in m.scopes
    case DeploymentSpace(d) => DeploymentScope in m.scopes && m.deployment == d
  }

  /** `limit` is the least capacity among the agents that can reach the namespace. */
  ghost predicate IsLeastCapacity(agents: seq<SharedMemory>, space: Namespace, limit: nat) {
    && (exists i :: 0 <= i < |agents| && Reaches(agents[i], space) && agents[i].maxEntries == limit)
    && (forall i :: 0 <= i < |agents| && Reaches(agents[i], space) ==> limit <= agents[i].maxEntries)
  }

  /** Collects the least capacity for every scope of one agent. */
  method SharedAccess(agents: seq<SharedMemory>, self: nat, name: string) returns (access: Access)
    requires self < |agents|
    ensures access.deployment == agents[self].deployment && access.agent == name
    ensures access.limits.Keys == agents[self].scopes
    ensures forall scope :: scope in access.limits
                            ==> IsLeastCapacity(agents, access.Space(scope), access.limits[scope])
  {
    var me := agents[self];
    var limits: map<Scope, nat> := map[];
    var remaining := me.scopes;
    access := Access(me.deployment, name, limits);
    while remaining != {}
      invariant remaining <= me.scopes
      invariant limits.Keys == me.scopes - remaining
      invariant forall scope :: scope in limits ==> IsLeastCapacity(agents, access.Space(scope), limits[scope])
    {
      var scope :| scope in remaining;
      var least := me.maxEntries;
      ghost var space := access.Space(scope);
      assert Reaches(me, space);
      for i := 0 to |agents|
        invariant exists k :: 0 <= k < |agents| && Reaches(agents[k], space) && agents[k].maxEntries == least
        invariant forall k :: 0 <= k < i && Reaches(agents[k], space) ==> least <= agents[k].maxEntries
      {
        var other := agents[i];
        if scope in other.scopes && (scope == RunScope || other.deployment == me.deployment) {
          assert Reaches(other, space);
          if other.maxEntries < least {
            least := other.maxEntries;
          }
        }
      }
      limits := limits[scope := least];
      remaining := remaining - {scope};
    }
    access := Access(me.deployment, name, limits);
  }

  /** Every agent that can reach a namespace is given the same limit for it. */
  lemma {:induction false} LimitsAgree(agents: seq<SharedMemory>, space: Namespace, a: nat, b: nat)
    requires IsLeastCapacity(agents, space, a) && IsLeastCapacity(agents, space, b)
    ensures a == b
  {
    var i :| 0 <= i < |agents| && Reaches(agents[i], space) && agents[i].maxEntries == a;
    var j :| 0 <= j < |agents| && Reaches(agents[j], space) && agents[j].maxEntries == b;
  }

  /** The limits in `access` are the ones `_shared_access` computes for these agents. */
  ghost predicate Compiled(agents: seq<SharedMemory>, access: Access) {
    forall scope :: scope in access.limits ==> IsLeastCapacity(agents, access.Space(scope), access.limits[scope])
  }

  ghost predicate WithinCapacity(agents: seq<SharedMemory>, store: Store) {
    forall space, limit :: IsLeastCapacity(agents, space, limit) ==> |LiveKeys(store, space)| <= limit
  }

  lemma {:induction false} StagedWithinCapacity(agents: seq<SharedMemory>, store: Store, access: Access,
                                                updates: seq<Update>, clock: Clock)
    requires Compiled(agents, access) && WithinCapacity(agents, store)
    requires forall u :: u in updates ==> u.scope in access.limits
    requires Staged(store, access, updates, clock).Ok?
    ensures WithinCapacity(agents, Staged(store, access, updates, clock).value.0)
  {
    if updates != [] {
      var n := |updates| - 1;
      var last := updates[n];
      StagedWithinCapacity(agents, store, access, updates[..n], clock);
      assert last in updates;
      var entries := Staged(store, access, updates[..n], clock).value.0;
      var after := Staged(store, access, updates, clock).value.0;
      var key := access.KeyOf(last.scope, last.name);
      forall space, limit | IsLeastCapacity(agents, space, limit)
        ensures |LiveKeys(after, space)| <= limit
      {
        LiveAfterLast(store, access, updates, clock, space);
        if last.operation.Set? && space == key.space && Visible(entries, key).None? {
          LimitsAgree(agents, space, limit, access.limits[last.scope]);
        }
      }
    }
  }

  /** Only setting an absent key adds a live entry. */
  lemma {:induction false} LiveAfterLast(store: Store, access: Access, updates: seq<Update>, clock: Clock,
                                         space: Namespace)
    requires updates != [] && forall u :: u in updates ==> u.scope in access.limits
    requires Staged(store, access, updates, clock).Ok?
    ensures var n := |updates| - 1;
            var key := access.KeyOf(updates[n].scope, updates[n].name);
            Staged(store, access, updates[..n], clock).Ok? &&
            var before, after := Staged(store, access, updates[..n], clock).value.0,
                Staged(store, access, updates, clock).value.0;
            |LiveKeys(after, space)| <= |LiveKeys(before, space)|
              + if updates[n].operation.Set? && space == key.space && Visible(before, key).None? then 1 else 0
  {
    var n := |updates| - 1;
    assert updates[n] in updates;
    var before, after := Staged(store, access, updates[..n], clock).value.0,
        Staged(store, access, updates, clock).value.0;
    var key := access.KeyOf(updates[n].scope, updates[n].name);
    if updates[n].operation.Set? && space == key.space {
      assert LiveKeys(after, space) == LiveKeys(before, space) + {key};
    } else {
      assert LiveKeys(after, space) <= LiveKeys(before, space);
      SubsetSize(LiveKeys(after, space), LiveKeys(before, space));
    }
  }

  lemma {:induction false} SubsetSize<T>(a: set<T>, b: set<T>)
    requires a <= b
    ensures |a| <= |b|
  {
    if a != {} {
      var x :| x in a;
      SubsetSize(a - {x}, b - {x});
    }
  }

  /** One batch, with the access of the agent that submits it. */
  datatype Batch = Batch(access: Access, updates: seq<Update>, clock: Clock)

  /** The store after a run of batches, in the order the store lock admits them. */
  ghost function RunBatches(store: Store, batches: seq<Batch>): Store {
    if batches == [] then store
    else
      var last := batches[|batches| - 1];
      Apply(RunBatches(store, batches[..|batches| - 1]), last.access, last.updates, last.clock).0
  }

  /**
   * Over every run of batches by every mix of agents, live entries stay within
   * the namespace limit and every version only moves forward.
   */
  lemma {:induction false} RunKeepsLimitsAndVersions(agents: seq<SharedMemory>, store: Store, batches: seq<Batch>)
    requires WellVersioned(store) && WithinCapacity(agents, store)
    requires forall b :: b in batches ==> Compiled(agents, b.access)
    ensures WithinCapacity(agents, RunBatches(store, batches))
    ensures WellVersioned(RunBatches(store, batches))
    ensures Advances(store, RunBatches(store, batches))
  {
    if batches != [] {
      var n := |batches| - 1;
      var last := batches[n];
      assert last in batches;
      RunKeepsLimitsAndVersions(agents, store, batches[..n]);
      var before := RunBatches(store, batches[..n]);
      ApplyAdvances(before, last.access, last.updates, last.clock);
      if BatchDefect(last.access, last.updates).None? {
        SoundBatchScopes(last.access, last.updates);
        if Staged(before, last.access, last.updates, last.clock).Ok? {
          StagedWithinCapacity(agents, before, last.access, last.updates, last.clock);
        }
      }
    }
  }
}
