/**
 * Declared shared-state dependencies of one prepared decision: the recheck and
 * the version binding of mininet_ai/agents/runtime.py.
 */
module Dependencies {
  import opened Basics
  import opened Arbitration
  import opened SharedState
  import opened Stores

  datatype Read = Read(scope: Scope, name: string)

  datatype Response = Response(dependencies: seq<Read>, updates: seq<Update>, proposals: seq<Candidate>)

  /** The version recorded in a view, zero for absence. */
  function VersionIn(view: Store, key: Key): nat {
    if key in view then view[key].version else 0
  }

  /** The explicit expectation for a target; a later update of the same target overrides an earlier one. */
  function Explicit(updates: seq<Update>, scope: Scope, name: string): Option<nat> {
    if updates == [] then None
    else
      var last := updates[|updates| - 1];
      if last.scope == scope && last.name == name then last.expected
          else Explicit(updates[..|updates| - 1], scope, name)
  }

  predicate Targets(updates: seq<Update>, scope: Scope, name: string) {
    exists i :: 0 <= i < |updates| && updates[i].scope == scope && updates[i].name == name
  }

  predicate Declares(response: Response, scope: Scope, name: string) {
    Read(scope, name) in response.dependencies || Targets(response.updates, scope, name)
  }

  predicate ScopesAllowed(access: Access, response: Response) {
    && (forall u :: u in response.updates ==> u.scope in access.limits)
    && (forall r :: r in response.dependencies ==> r.scope in access.limits)
  }

  /** One declared key: the store still shows what the snapshot showed, and any explicit expectation says so too. */
  predicate KeyCurrent(access: Access, observed: Store, current: Store, response: Response, scope: Scope, name: string)
  {
    var key := access.KeyOf(scope, name);
    var explicit := Explicit(response.updates, scope, name);
    && VersionIn(current, key) == VersionIn(observed, key)
    && (explicit.Some? ==> explicit.value == VersionIn(observed, key))
  }

  ghost predicate Current(access: Access, observed: Store, current: Store, response: Response) {
    && ScopesAllowed(access, response)
    && (forall scope, name :: Declares(response, scope, name) ==>
         KeyCurrent(access, observed, current, response, scope, name))
  }

  /** The check made before arbitration, before each action, and again before publishing. */
  method CheckSharedState(access: Access, observed: Store, current: Store, response: Response)
    returns (error: Option<StateError>)
    ensures error.None? <==> Current(access, observed, current, response)
    ensures error.Some? ==> error.value == if ScopesAllowed(access, response) then VersionConflict else ScopeForbidden
  {
    var updates, dependencies := response.updates, response.dependencies;
    for i := 0 to |updates|
      invariant forall k :: 0 <= k < i ==> updates[k].scope in access.limits
    {
      if updates[i].scope !in access.limits {
        return Some(ScopeForbidden);
      }
    }
    for i := 0 to |dependencies|
      invariant forall k :: 0 <= k < i ==> dependencies[k].scope in access.limits
    {
      if dependencies[i].scope !in access.limits {
        return Some(ScopeForbidden);
      }
    }
    var identities := (set r | r in dependencies) + (set u | u in updates :: Read(u.scope, u.name));
    assert forall scope, name :: Declares(response, scope, name) <==> Read(scope, name) in identities by {
      forall scope, name
        ensures Targets(updates, scope, name) <==> Read(scope, name) in set u | u in updates :: Read(u.scope, u.name)
      {
      }
    }
    var remaining := identities;
    while remaining != {}
      invariant remaining <= identities
      invariant forall r :: r in identities - remaining ==>
                KeyCurrent(access, observed, current, response, r.scope, r.name)
    {
      var r :| r in remaining;
      var key := access.KeyOf(r.scope, r.name);
      var seen := VersionIn(observed, key);
      var explicit := Explicit(updates, r.scope, r.name);
      var expected := if explicit.None? then seen else explicit.value;
      if VersionIn(current, key) != expected || expected != seen {
        assert Declares(response, r.scope, r.name);
        return Some(VersionConflict);
      }
      remaining := remaining - {r};
    }
    error := None;
  }

  /** Updates without an expectation are bound to the version the invocation saw. */
  function Bound(access: Access, observed: Store, updates: seq<Update>): (bound: seq<Update>)
    ensures |bound| == |updates|
    ensures forall i :: 0 <= i < |updates| ==>
      bound[i] == updates[i].(expected := if updates[i].expected.Some? then updates[i].expected
                                          else Some(VersionIn(observed,
                                              access.KeyOf(updates[i].scope, updates[i].name))))
  {
    seq(|updates|, i requires 0 <= i < |updates| =>
      updates[i].(expected := if updates[i].expected.Some? then updates[i].expected
                              else Some(VersionIn(observed, access.KeyOf(updates[i].scope, updates[i].name)))))
  }

  lemma {:induction false} BoundEffect(access: Access, observed: Store, updates: seq<Update>, values: Values)
    ensures Effect(values, access, Bound(access, observed, updates)) == Effect(values, access, updates)
  {
    if updates != [] {
      var n := |updates| - 1;
      assert Bound(access, observed, updates)[..n] == Bound(access, observed, updates[..n]);
      BoundEffect(access, observed, updates[..n], values);
    }
  }

  lemma {:induction false} ExplicitOfDistinct(updates: seq<Update>, i: nat)
    requires i < |updates|
    requires forall k, l :: 0 <= k < l < |updates| ==> !SameTarget(updates[k], updates[l])
    ensures Explicit(updates, updates[i].scope, updates[i].name) == updates[i].expected
    decreases |updates|
  {
    var n := |updates| - 1;
    if i < n {
      ExplicitOfDistinct(updates[..n], i);
      assert !SameTarget(updates[i], updates[n]);
    }
  }

  /**
   * Once the recheck passes, publishing can no longer fail because of a version or
   * a scope: only a malformed batch, a missing entry or a full namespace stops it.
   */
  lemma {:induction false} CheckedNeverStale(store: Store, access: Access, observed: Store, response: Response,
                                             clock: Clock)
    requires WellVersioned(store)
    requires Current(access, observed, Snapshot(store, access), response)
    ensures var outcome := Apply(store, access, Bound(access, observed, response.updates), clock).1;
            outcome.Err? ==> outcome.error in {DuplicateUpdate, EntryMissing, CapacityExceeded}
  {
    var updates := response.updates;
    var bound := Bound(access, observed, updates);
    forall u | u in bound
      ensures u.scope in access.limits
    {
      var i :| 0 <= i < |bound| && bound[i] == u;
      assert updates[i] in updates;
    }
    if BatchDefect(access, bound).Some? {
      DefectIsDuplicate(access, bound);
    } else {
      SoundBatchScopes(access, bound);
      forall i | 0 <= i < |bound|
        ensures ExpectsCurrent(store, access, bound[i])
      {
        BoundExpectsCurrent(store, access, observed, response, i);
      }
      StagedNeverStale(store, access, bound, clock);
    }
  }

  lemma {:induction false} BoundExpectsCurrent(store: Store, access: Access, observed: Store, response: Response,
                                               i: nat)
    requires WellVersioned(store)
    requires Current(access, observed, Snapshot(store, access), response)
    requires i < |response.updates|
    requires var bound := Bound(access, observed, response.updates);
             forall k, l :: 0 <= k < l < |bound| ==> !SameTarget(bound[k], bound[l])
    ensures ExpectsCurrent(store, access, Bound(access, observed, response.updates)[i])
  {
    var updates := response.updates;
    var bound := Bound(access, observed, updates);
    var u := updates[i];
    assert forall k, l :: 0 <= k < l < |updates| ==>
           SameTarget(updates[k], updates[l]) == SameTarget(bound[k], bound[l]);
    ExplicitOfDistinct(updates, i);
    assert Targets(updates, u.scope, u.name);
    assert Declares(response, u.scope, u.name);
    assert u in updates;
    VersionInSnapshot(store, access, u.scope, u.name);
  }

  /** For an allowed scope, the caller's view shows exactly the visible version. */
  lemma {:induction false} VersionInSnapshot(store: Store, access: Access, scope: Scope, name: string)
    requires scope in access.limits
    ensures var key := access.KeyOf(scope, name);
            var visible := Visible(store, key);
            VersionIn(Snapshot(store, access), key) == if visible.Some? then visible.value else 0
  {
    assert Readable(access, access.KeyOf(scope, name));
  }
}
