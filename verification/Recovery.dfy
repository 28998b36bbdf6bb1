/**
 * Bounded recovery: reconciliation of a fixed bundle and revocable authority
 * (mininet_ai/agents/reconciliation.py and mininet_ai/agents/bounded.py).
 */
module Recovery {
  import opened Basics

  // ------------------------------------------------------------ reconciliation

  datatype StepState = Present | Missing | Unreadable

  datatype PolicyState = Unknown | VerifiedPrimary | VerifiedRecovery | Partial

  datatype Reconciliation = Reconciliation(policy: PolicyState, present: seq<nat>, missing: seq<nat>)

  /** The indexes of one state, in increasing order. */
  function IndexesOf(states: seq<StepState>, state: StepState): seq<nat> {
    if states == [] then []
    else
      var n := |states| - 1;
      IndexesOf(states[..n], state) + if states[n] == state then [n] else []
  }

  function Range(n: nat): (r: seq<nat>)
    ensures |r| == n && forall i :: 0 <= i < n ==> r[i] == i
  {
    seq(n, i => i)
  }

  function Reconcile(states: seq<StepState>): Reconciliation {
    var present, missing := IndexesOf(states, Present), IndexesOf(states, Missing);
    if Unreadable in states then Reconciliation(Unknown, [], Range(|states|))
    else if present != Range(|present|) then Reconciliation(Unknown, [], Range(|states|))
    else if present == [] then Reconciliation(VerifiedPrimary, present, missing)
    else if missing == [] then Reconciliation(VerifiedRecovery, present, missing)
    else Reconciliation(Partial, present, missing)
  }

  /** Exactly the first `k` steps are present and the rest are missing. */
  ghost predicate PrefixShaped(states: seq<StepState>, k: nat) {
    && k <= |states|
    && (forall i :: 0 <= i < k ==> states[i] == Present)
    && (forall i :: k <= i < |states| ==> states[i] == Missing)
  }

  lemma {:induction false} IndexesExact(states: seq<StepState>, state: StepState)
    ensures forall x :: x in IndexesOf(states, state) <==> 0 <= x < |states| && states[x] == state
    ensures forall i, j :: 0 <= i < j < |IndexesOf(states, state)| ==>
              IndexesOf(states, state)[i] < IndexesOf(states, state)[j]
    ensures |IndexesOf(states, state)| <= |states|
  {
    if states != [] {
      var n := |states| - 1;
      var prior := IndexesOf(states[..n], state);
      IndexesExact(states[..n], state);
      assert forall i :: 0 <= i < |prior| ==> prior[i] in prior;
    }
  }

  lemma {:induction false} IndexesOfPrefix(states: seq<StepState>, k: nat)
    requires PrefixShaped(states, k)
    ensures IndexesOf(states, Present) == Range(k)
    ensures |IndexesOf(states, Missing)| == |states| - k
    ensures forall i :: 0 <= i < |states| - k ==> IndexesOf(states, Missing)[i] == k + i
  {
    if states != [] {
      var n := |states| - 1;
      if k <= n {
        IndexesOfPrefix(states[..n], k);
      } else {
        IndexesOfPrefix(states[..n], n);
      }
    }
  }

  /**
   * Reconciliation accepts exactly the prefix-shaped readings: it answers `unknown`
   * for every other one, and otherwise names the installed prefix and the missing rest.
   */
  lemma {:induction false} ReconcileExact(states: seq<StepState>, k: nat)
    ensures PrefixShaped(states, k) ==>
              && Reconcile(states).policy == (if k == 0 then VerifiedPrimary else if k == |states|
                   then VerifiedRecovery else Partial)
              && Reconcile(states).present == Range(k)
              && |Reconcile(states).missing| == |states| - k
              && forall i :: 0 <= i < |states| - k ==> Reconcile(states).missing[i] == k + i
    ensures Reconcile(states).policy != Unknown ==> PrefixShaped(states, |Reconcile(states).present|)
  {
    if PrefixShaped(states, k) {
      IndexesOfPrefix(states, k);
    }
    if Reconcile(states).policy != Unknown {
      IndexesExact(states, Present);
      var present := IndexesOf(states, Present);
      forall i | 0 <= i < |states|
        ensures states[i] == if i < |present| then Present else Missing
      {
        assert states[i] != Unreadable;
        assert i < |present| ==> present[i] == i;
        if states[i] == Present {
          var j :| 0 <= j < |present| && present[j] == i;
        }
      }
    }
  }

  // ----------------------------------------------------------------- authority

  datatype Revocation = Cancelled | Timeout

  /** Synchronizes revocation with the start of local actions. */
  class DecisionAuthority {
    const deadline: int
    var revocation: Option<Revocation>
    var starts: seq<int>

    ghost predicate Valid()
      reads this
    {
      forall i :: 0 <= i < |starts| ==> starts[i] < deadline
    }

    constructor (deadline: int)
      ensures Valid() && this.deadline == deadline && revocation.None? && starts == []
    {
      this.deadline := deadline;
      revocation, starts := None, [];
    }

    /** The first revocation wins. */
    method Revoke(reason: Revocation) returns (first: bool)
      requires Valid()
      modifies this`revocation
      ensures Valid()
      ensures revocation == if old(revocation).Some? then old(revocation) else Some(reason)
      ensures first <==> old(revocation).None?
    {
      first := revocation.None?;
      if first {
        revocation := Some(reason);
      }
    }

    /** Checks authority and crosses the action-start boundary in one step, at the clock reading `tick`. */
    method StartIfAuthorized(tick: int) returns (started: bool)
      requires Valid()
      modifies this
      ensures Valid()
      ensures started <==> old(revocation).None? && tick < deadline
      ensures starts == old(starts) + if started then [tick] else []
      ensures revocation == if old(revocation).None? && !started then Some(Timeout) else old(revocation)
    {
      started := false;
      if revocation.Some? {
        return;
      }
      if tick >= deadline {
        revocation := Some(Timeout);
        return;
      }
      starts := starts + [tick];
      started := true;
    }

    method ValidateResponse(tick: int) returns (reason: Option<Revocation>)
      requires Valid()
      modifies this`revocation
      ensures Valid()
      ensures revocation == if old(revocation).None? && tick >= deadline then Some(Timeout) else old(revocation)
      ensures reason == revocation
    {
      if revocation.None? && tick >= deadline {
        revocation := Some(Timeout);
      }
      reason := revocation;
    }
  }

  /** What may happen to an authority: a step asks to start, a response is validated, someone revokes. */
  datatype AuthorityEvent = Ask(tick: int) | Validate(tick: int) | Revoking(reason: Revocation)

  /**
   * Drives an authority through any sequence of events. A start is granted only before
   * the deadline, and nothing is granted after the first refusal or revocation.
   */
  method DriveAuthority(deadline: int, events: seq<AuthorityEvent>) returns (granted: seq<bool>)
    ensures |granted| == |events|
    ensures forall i :: 0 <= i < |events| && granted[i] ==> events[i].Ask? && events[i].tick < deadline
    ensures forall i, j :: 0 <= i < j < |events| && granted[j] ==>
              && !events[i].Revoking?
              && (events[i].Ask? ==> granted[i])
              && (events[i].Validate? ==> events[i].tick < deadline)
    ensures forall i :: 0 <= i < |events| && events[i].Ask? && !granted[i] ==>
              || events[i].tick >= deadline
              || exists k :: 0 <= k < i && (events[k].Revoking? || (!events[k].Revoking? && events[k].tick >= deadline))
  {
    var authority := new DecisionAuthority(deadline);
    granted := [];
    for i := 0 to |events|
      invariant fresh(authority) && authority.Valid() && authority.deadline == deadline
      invariant |granted| == i
      invariant forall k :: 0 <= k < i && granted[k] ==> events[k].Ask? && events[k].tick < deadline
      invariant authority.revocation.None? <==>
        forall k :: 0 <= k < i ==> !events[k].Revoking? && events[k].tick < deadline
      invariant forall k :: 0 <= k < i && authority.revocation.None? && events[k].Ask? ==> granted[k]
      invariant forall k, j :: 0 <= k < j < i && granted[j] ==>
        && !events[k].Revoking? && (events[k].Ask? ==> granted[k])
             && (events[k].Validate? ==> events[k].tick < deadline)
      invariant forall k :: 0 <= k < i && events[k].Ask? && !granted[k] ==>
        || events[k].tick >= deadline
        || exists m :: 0 <= m < k && (events[m].Revoking? || (!events[m].Revoking? && events[m].tick >= deadline))
    {
      match events[i] {
        case Ask(tick) =>
          var started := authority.StartIfAuthorized(tick);
          granted := granted + [started];
        case Validate(tick) =>
          var reason := authority.ValidateResponse(tick);
          granted := granted + [false];
        case Revoking(reason) =>
          var first := authority.Revoke(reason);
          granted := granted + [false];
      }
    }
  }

  /** What surrounds one step of a bundle: a revocation before it, the clock when it asks, and its outcome. */
  datatype Moment = Moment(revoked: Option<Revocation>, tick: int, succeeds: bool)

  /** Nothing stands in the way of step `i`: no revocation so far, and the deadline has not passed. */
  predicate Allowed(deadline: int, moments: nat -> Moment, i: nat) {
    moments(i).tick < deadline && forall k :: 0 <= k <= i ==> moments(k).revoked.None?
  }

  /** How many of the first `size` steps are begun: each allowed, and each after a success. */
  function Granted(deadline: int, moments: nat -> Moment, size: nat): (begun: nat)
    ensures begun <= size
  {
    if size == 0 then 0
    else
      var begun := Granted(deadline, moments, size - 1);
      if begun < size - 1 || !Allowed(deadline, moments, size - 1) then begun
      else if size > 1 && !moments(size - 2).succeeds then begun else size
  }

  /** The steps that are begun are the first ones, and the next one was not allowed or follows a failure. */
  lemma {:induction false} GrantedExact(deadline: int, moments: nat -> Moment, size: nat)
    ensures var begun := Granted(deadline, moments, size);
            && (forall i :: 0 <= i < begun ==> Allowed(deadline, moments, i))
            && (forall i: nat :: i + 1 < begun ==> moments(i).succeeds)
            && (begun < size ==> !Allowed(deadline, moments, begun) || (begun > 0 && !moments(begun - 1).succeeds))
  {
    if size > 0 {
      GrantedExact(deadline, moments, size - 1);
    }
  }

  lemma {:induction false} GrantedStops(deadline: int, moments: nat -> Moment, begun: nat, size: nat)
    requires begun <= size && Granted(deadline, moments, begun) == begun
    requires begun < size ==> !Allowed(deadline, moments, begun) || (begun > 0 && !moments(begun - 1).succeeds)
    ensures Granted(deadline, moments, size) == begun
  {
    if begun < size {
      GrantedStops(deadline, moments, begun, size - 1);
    }
  }

  /** Carries out a bundle under its authority: as many steps are begun as it grants. */
  method RunBundle(deadline: int, moments: nat -> Moment, size: nat) returns (started: nat)
    ensures started == Granted(deadline, moments, size)
  {
    var authority := new DecisionAuthority(deadline);
    started := 0;
    while started < size
      invariant started <= size && fresh(authority) && authority.Valid() && authority.deadline == deadline
      invariant authority.revocation.None? && forall k :: 0 <= k < started ==> moments(k).revoked.None?
      invariant Granted(deadline, moments, started) == started
      invariant started > 0 ==> moments(started - 1).succeeds
    {
      var moment := moments(started);
      if moment.revoked.Some? {
        var first := authority.Revoke(moment.revoked.value);
      }
      var allowed := authority.StartIfAuthorized(moment.tick);
      assert allowed <==> Allowed(deadline, moments, started);
      if !allowed {
        GrantedStops(deadline, moments, started, size);
        return;
      }
      started := started + 1;
      if !moment.succeeds {
        GrantedStops(deadline, moments, started, size);
        return;
      }
    }
  }
}
