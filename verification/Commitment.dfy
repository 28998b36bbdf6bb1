/**
 * The whole commitment protocol as one machine: any number of coordinated
 * invocations prepare without locks, reserve, act, recheck and publish, and a
 * scheduler interleaves their critical sections in any order.
 */
module Commitment {
  import opened Basics
  import opened Arbitration
  import opened SharedState
  import opened Stores
  import opened Dependencies
  import R = Reservations
  import Admission

  /** Who invokes: the coordination request it belongs to, its scopes and its priority. */
  datatype Agent = Agent(request: nat, access: Access, priority: int)

  /** Where one action stands inside `admit`. */
  datatype Mode = Between | Blocked | Acting

  datatype Phase =
    | Deciding
    | Queued(ticket: nat)
    | Finishing(ticket: nat, next: nat, mode: Mode, ok: bool)
    | Checked(ticket: nat)
    | Settled(ticket: nat)
    | Done

  predicate Holds(p: Phase) {
    p.Queued? || p.Finishing? || p.Checked? || p.Settled?
  }

  datatype Thread = Thread(agent: Agent, response: Response, snapshot: Store, survivors: seq<Candidate>, phase: Phase)

  /** A published batch, with what its invocation had declared and seen. */
  datatype Commit = Commit(access: Access, updates: seq<Update>, declared: set<Key>, seen: Values)

  datatype State = State(
    store: Store,
    queue: R.Queue,
    holders: seq<nat>,
    active: seq<Candidate>,
    pending: seq<Candidate>,
    histories: map<nat, seq<Candidate>>,
    threads: map<nat, Thread>,
    log: seq<Commit>) {

    function History(request: nat): seq<Candidate> {
      if request in histories then histories[request] else []
    }
  }

  function Initial(store: Store): State {
    State(store, R.EMPTY_QUEUE, [], [], [], map[], map[], [])
  }

  function DependencyKeys(access: Access, response: Response): set<Key> {
    set r | r in response.dependencies :: access.KeyOf(r.scope, r.name)
  }

  function UpdateKeys(access: Access, response: Response): set<Key> {
    set u | u in response.updates :: access.KeyOf(u.scope, u.name)
  }

  function DeclaredKeys(access: Access, response: Response): set<Key> {
    DependencyKeys(access, response) + UpdateKeys(access, response)
  }

  // ------------------------------------------------------------------ actions

  datatype Action =
    | Prepare(t: nat, agent: Agent, response: Response)
    | Arrive(t: nat, ordered: seq<Candidate>, admitted: seq<Candidate>)
    | Wake(t: nat)
    | Begin(t: nat)
    | SkipAction(t: nat)
    | EnterAction(t: nat)
    | LeaveAction(t: nat, succeeded: bool)
    | Recheck(t: nat)
    | Publish(t: nat, clock: Clock)
    | Release(t: nat)

  /** `admitted` lists the request's history, the active actions and every reserved candidate. */
  ghost predicate ListsAdmitted(s: State, request: nat, admitted: seq<Candidate>) {
    forall c :: c in admitted <==>
      || c in s.History(request)
      || c in s.active
      || exists k :: (k in s.queue.waiting || k in s.queue.committing) && s.queue.Known(k)
           && c in s.queue.arrivals[k].candidates
  }

  /** What arbitration hands to the reservation: proposals of this invocation, conflict-free under `reject`. */
  ghost predicate Arbitrated(policy: Policy, t: nat, response: Response, ordered: seq<Candidate>) {
    && DistinctIds(ordered)
    && |ordered| <= |response.proposals|
    && (forall c :: c in ordered ==> c in response.proposals && c.id.invocation == t)
    && (policy == Reject ==> ConflictFree(ordered))
  }

  ghost predicate Can(policy: Policy, s: State, a: Action) {
    match a
    case Prepare(t, _, _) => t !in s.threads
    case Arrive(t, ordered, admitted) =>
      && t in s.threads && s.threads[t].phase.Deciding?
      && Arbitrated(policy, t, s.threads[t].response, ordered)
      && ListsAdmitted(s, s.threads[t].agent.request, admitted)
      && R.Tickets(s.queue)
    case Wake(t) =>
      && t in s.threads && s.threads[t].phase.Queued?
      && R.Tickets(s.queue) && R.Possible(s.queue, R.Wake(s.threads[t].phase.ticket))
    case Begin(t) => t in s.threads && s.threads[t].phase.Queued? && s.threads[t].phase.ticket in s.queue.committing
    case SkipAction(t) => t in s.threads && AtAction(s.threads[t])
    case EnterAction(t) => t in s.threads && AtAction(s.threads[t])
    case LeaveAction(t, _) =>
      && t in s.threads && s.threads[t].phase.Finishing? && s.threads[t].phase.mode == Acting
      && s.threads[t].phase.next < |s.threads[t].survivors|
      && R.Tickets(s.queue)
    case Recheck(t) =>
      && t in s.threads && s.threads[t].phase.Finishing? && s.threads[t].phase.mode == Between
      && s.threads[t].phase.next == |s.threads[t].survivors| && s.threads[t].phase.ok
    case Publish(t, _) => t in s.threads && s.threads[t].phase.Checked?
    case Release(t) =>
      && t in s.threads
      && (s.threads[t].phase.Checked? || s.threads[t].phase.Settled?
          || (s.threads[t].phase.Finishing? && s.threads[t].phase.mode == Between))
      && R.Tickets(s.queue) && R.Possible(s.queue, R.Leave(s.threads[t].phase.ticket))
  }

  predicate AtAction(th: Thread) {
    th.phase.Finishing? && th.phase.mode == Between && th.phase.next < |th.survivors|
  }

  function SetPhase(s: State, t: nat, phase: Phase): State
    requires t in s.threads
  {
    s.(threads := s.threads[t := s.threads[t].(phase := phase)])
  }

  /** The reservation a decision places, after refusals. */
  function Reserve(th: Thread, survivors: seq<Candidate>): R.Reservation {
    Admission.MakeReservation(DependencyKeys(th.agent.access, th.response), UpdateKeys(th.agent.access, th.response),
                              th.response.proposals != [], survivors, th.agent.priority)
  }

  /** The winner `admit` would report for the next action of `th`. */
  function AdmitWinner(policy: Policy, s: State, th: Thread): Option<Candidate>
    requires AtAction(th)
  {
    if policy == Reject then FirstConflict(s.History(th.agent.request) + s.active, th.survivors[th.phase.next])
        else None
  }

  ghost predicate AdmitStarts(policy: Policy, s: State, th: Thread)
    requires AtAction(th)
  {
    Admission.AdmitReady(policy, s.active, s.pending, [], th.survivors[th.phase.next])
  }

  ghost function Do(policy: Policy, s: State, a: Action): State
    requires Can(policy, s, a)
  {
    match a
    case Prepare(t, agent, response) =>
      s.(threads := s.threads[t := Thread(agent, response, Snapshot(s.store, agent.access), [], Deciding)])
    case Arrive(t, ordered, admitted) =>
      var th := s.threads[t];
      var survivors := Admission.Survivors(policy, admitted, ordered);
      s.(queue := R.Next(policy, s.queue, R.Arrive(Reserve(th, survivors))),
         holders := s.holders + [t],
         threads := s.threads[t := th.(survivors := survivors, phase := Queued(|s.queue.arrivals|))])
    case Wake(t) =>
      s.(queue := R.Next(policy, s.queue, R.Wake(s.threads[t].phase.ticket)))
    case Begin(t) =>
      var th := s.threads[t];
      SetPhase(s, t, Finishing(th.phase.ticket, 0, Between, |th.survivors| == |th.response.proposals|))
    case SkipAction(t) =>
      var p := s.threads[t].phase;
      SetPhase(s, t, p.(next := p.next + 1, ok := false))
    case EnterAction(t) =>
      var th := s.threads[t];
      var p, c, request := th.phase, th.survivors[th.phase.next], th.agent.request;
      if AdmitWinner(policy, s, th).Some? then SetPhase(s, t, p.(next := p.next + 1, ok := false))
      else if AdmitStarts(policy, s, th) then
        SetPhase(s.(active := s.active + [c], histories := s.histories[request := s.History(request) + [c]]),
                 t, p.(mode := Acting))
      else SetPhase(s.(pending := s.pending + [c]), t, p.(mode := Blocked))
    case LeaveAction(t, succeeded) =>
      var th := s.threads[t];
      var p := th.phase;
      SetPhase(s.(active := Admission.Remove(s.active, th.survivors[p.next]),
                  queue := R.Next(policy, s.queue, R.NotifyAll)),
               t, p.(next := p.next + 1, mode := Between, ok := p.ok && succeeded))
    case Recheck(t) =>
      var th := s.threads[t];
      if Current(th.agent.access, th.snapshot, Snapshot(s.store, th.agent.access), th.response)
      then SetPhase(s, t, Checked(th.phase.ticket))
      else SetPhase(s, t, Settled(th.phase.ticket))
    case Publish(t, clock) =>
      var th := s.threads[t];
      var (after, outcome) := Attempted(s, th, clock);
      SetPhase(s.(store := after, log := if outcome.Ok? then s.log + [CommitOf(th)] else s.log),
               t, Settled(th.phase.ticket))
    case Release(t) =>
      SetPhase(s.(queue := R.Next(policy, s.queue, R.Leave(s.threads[t].phase.ticket))), t, Done)
  }

  /** What publishing the decision of `th` does to the store. */
  ghost function Attempted(s: State, th: Thread, clock: Clock): (Store, Result<seq<Change>, StateError>) {
    Apply(s.store, th.agent.access, Bound(th.agent.access, th.snapshot, th.response.updates), clock)
  }

  function CommitOf(th: Thread): Commit {
    Commit(th.agent.access, th.response.updates, DeclaredKeys(th.agent.access, th.response), Live(th.snapshot))
  }

  // ------------------------------------------------------- bookkeeping invariant

  /** Threads, tickets and the queue tell the same story. */
  ghost predicate Consistent(policy: Policy, s: State) {
    && R.Sound(policy, s.queue)
    && |s.holders| == |s.queue.arrivals|
    && (forall k :: 0 <= k < |s.holders| ==> s.holders[k] in s.threads)
    && (forall k :: k in s.queue.waiting ==> s.threads[s.holders[k]].phase == Queued(k))
    && (forall k :: k in s.queue.committing ==>
         Holds(s.threads[s.holders[k]].phase) && s.threads[s.holders[k]].phase.ticket == k)
    && (forall t :: t in s.threads ==> ThreadConsistent(s, t))
  }

  ghost predicate ThreadConsistent(s: State, t: nat)
    requires t in s.threads
  {
    var th := s.threads[t];
    && (Holds(th.phase) ==>
          && th.phase.ticket < |s.holders| && s.holders[th.phase.ticket] == t
          && s.queue.Known(th.phase.ticket)
          && s.queue.arrivals[th.phase.ticket] == Reserve(th, th.survivors)
          && (th.phase.ticket in s.queue.committing || (th.phase.Queued? && th.phase.ticket in s.queue.waiting))
          && DistinctIds(th.survivors) && |th.survivors| <= |th.response.proposals|
          && (forall c :: c in th.survivors ==> c.id.invocation == t))
    && (th.phase.Finishing? ==> th.phase.next <= |th.survivors|)
    && (th.phase.Finishing? && th.phase.mode != Between ==> th.phase.next < |th.survivors|)
    && (th.phase.Finishing? && th.phase.ok ==> |th.survivors| == |th.response.proposals|)
    && (th.phase.Checked? ==> |th.survivors| == |th.response.proposals|)
  }

  lemma {:induction false} ConsistentQueueStep(policy: Policy, s: State, e: R.Event)
    requires Consistent(policy, s) && R.Possible(s.queue, e) && !e.Arrive? && !e.Leave?
    ensures Consistent(policy, s.(queue := R.Next(policy, s.queue, e)))
  {
    var s' := s.(queue := R.Next(policy, s.queue, e));
    R.NextSound(policy, s.queue, e);
    forall t | t in s'.threads
      ensures ThreadConsistent(s', t)
    {
      assert ThreadConsistent(s, t);
    }
  }

  lemma {:induction false} ConsistentSetPhase(policy: Policy, s: State, t: nat, phase: Phase)
    requires Consistent(policy, s) && t in s.threads && Holds(s.threads[t].phase)
    requires Holds(phase) && phase.ticket == s.threads[t].phase.ticket && !phase.Queued?
    requires s.threads[t].phase.ticket in s.queue.committing
    requires var th := s.threads[t];
             && (phase.Finishing? ==> phase.next <= |th.survivors|)
             && (phase.Finishing? && phase.mode != Between ==> phase.next < |th.survivors|)
             && ((phase.Finishing? && phase.ok) || phase.Checked? ==> |th.survivors| == |th.response.proposals|)
    ensures Consistent(policy, SetPhase(s, t, phase))
  {
    var s' := SetPhase(s, t, phase);
    forall u | u in s'.threads
      ensures ThreadConsistent(s', u)
    {
      assert ThreadConsistent(s, u);
    }
    assert ThreadConsistent(s, t);
  }

  /** An arrival takes the next ticket and moves nobody else. */
  lemma {:induction false} ArrivalShape(policy: Policy, q: R.Queue, r: R.Reservation)
    requires R.Tickets(q)
    ensures var q' := R.Next(policy, q, R.Arrive(r));
            && q'.arrivals == q.arrivals + [r]
            && q'.waiting + q'.committing == q.waiting + q.committing + {|q.arrivals|}
            && q.committing <= q'.committing <= q.committing + {|q.arrivals|}
  {
  }

  /** The state after thread `t` has taken the next ticket for these survivors. */
  ghost predicate Arrived(s: State, s': State, t: nat, survivors: seq<Candidate>) {
    && t in s.threads && s.threads[t].phase.Deciding?
    && s'.holders == s.holders + [t]
    && s'.threads == s.threads[t := s.threads[t].(survivors := survivors, phase := Queued(|s.queue.arrivals|))]
    && s'.queue.arrivals == s.queue.arrivals + [Reserve(s.threads[t], survivors)]
    && s'.queue.waiting + s'.queue.committing == s.queue.waiting + s.queue.committing + {|s.queue.arrivals|}
    && s.queue.committing <= s'.queue.committing <= s.queue.committing + {|s.queue.arrivals|}
  }

  lemma {:induction false} ConsistentArrive(policy: Policy, s: State, a: Action)
    requires Consistent(policy, s) && a.Arrive? && Can(policy, s, a)
    ensures Consistent(policy, Do(policy, s, a))
  {
    var survivors := Admission.Survivors(policy, a.admitted, a.ordered);
    R.NextSound(policy, s.queue, R.Arrive(Reserve(s.threads[a.t], survivors)));
    ArrivalShape(policy, s.queue, Reserve(s.threads[a.t], survivors));
    Admission.SurvivorsCompatible(policy, a.admitted, a.ordered);
    ConsistentArrived(policy, s, Do(policy, s, a), a.t, survivors);
  }

  lemma {:induction false} ConsistentArrived(policy: Policy, s: State, s': State, t: nat, survivors: seq<Candidate>)
    requires Consistent(policy, s) && Arrived(s, s', t, survivors) && R.Sound(policy, s'.queue)
    requires DistinctIds(survivors) && |survivors| <= |s.threads[t].response.proposals|
    requires forall c :: c in survivors ==> c.id.invocation == t
    ensures Consistent(policy, s')
  {
    forall u | u in s'.threads
      ensures ThreadConsistent(s', u)
    {
      assert ThreadConsistent(s, u);
    }
    forall k | k in s.queue.waiting || k in s.queue.committing
      ensures s.holders[k] != t && s'.holders[k] == s.holders[k]
    {
    }
  }

  /** The state after thread `t` has left the commit section. */
  ghost predicate Left(s: State, s': State, t: nat) {
    && t in s.threads && Holds(s.threads[t].phase)
    && s'.holders == s.holders && s'.threads == s.threads[t := s.threads[t].(phase := Done)]
    && s'.queue.arrivals == s.queue.arrivals && s'.queue.waiting == s.queue.waiting
    && s'.queue.committing == s.queue.committing - {s.threads[t].phase.ticket}
    && s.threads[t].phase.ticket in s.queue.committing
  }

  lemma {:induction false} ConsistentRelease(policy: Policy, s: State, t: nat)
    requires Consistent(policy, s) && Can(policy, s, Release(t))
    ensures Consistent(policy, Do(policy, s, Release(t)))
  {
    R.NextSound(policy, s.queue, R.Leave(s.threads[t].phase.ticket));
    ConsistentLeft(policy, s, Do(policy, s, Release(t)), t);
  }

  lemma {:induction false} ConsistentLeft(policy: Policy, s: State, s': State, t: nat)
    requires Consistent(policy, s) && Left(s, s', t) && R.Sound(policy, s'.queue)
    ensures Consistent(policy, s')
  {
    assert ThreadConsistent(s, t);
    forall u | u in s'.threads
      ensures ThreadConsistent(s', u)
    {
      assert ThreadConsistent(s, u);
    }
    forall k | k in s'.queue.waiting || k in s'.queue.committing
      ensures s.holders[k] != t
    {
    }
  }

  lemma {:induction false} ConsistentPrepare(policy: Policy, s: State, s': State, t: nat)
    requires Consistent(policy, s) && t !in s.threads && t in s'.threads && s'.threads[t].phase.Deciding?
    requires s' == s.(threads := s.threads[t := s'.threads[t]])
    ensures Consistent(policy, s')
  {
    forall u | u in s'.threads
      ensures ThreadConsistent(s', u)
    {
      assert u != t ==> ThreadConsistent(s, u);
    }
  }

  lemma {:induction false} ConsistentLeave(policy: Policy, s: State, t: nat, succeeded: bool)
    requires Consistent(policy, s) && Can(policy, s, LeaveAction(t, succeeded))
    ensures Consistent(policy, Do(policy, s, LeaveAction(t, succeeded)))
  {
    var s' := Do(policy, s, LeaveAction(t, succeeded));
    assert ThreadConsistent(s, t);
    ConsistentQueueStep(policy, s, R.NotifyAll);
    var mid := s.(queue := s'.queue, active := s'.active);
    ConsistentSameQueue(policy, s.(queue := s'.queue), mid);
    ConsistentSetPhase(policy, mid, t, s'.threads[t].phase);
  }

  lemma {:induction false} ConsistentStep(policy: Policy, s: State, a: Action)
    requires Consistent(policy, s) && Can(policy, s, a)
    ensures Consistent(policy, Do(policy, s, a))
  {
    var s' := Do(policy, s, a);
    if a.t in s.threads {
      assert ThreadConsistent(s, a.t);
    }
    match a
    case Prepare(t, _, _) => ConsistentPrepare(policy, s, s', t);
    case Arrive(_, _, _) => ConsistentArrive(policy, s, a);
    case Wake(t) => ConsistentQueueStep(policy, s, R.Wake(s.threads[t].phase.ticket));
    case Begin(t) => ConsistentSetPhase(policy, s, t, s'.threads[t].phase);
    case SkipAction(t) => ConsistentSetPhase(policy, s, t, s'.threads[t].phase);
    case EnterAction(t) => ConsistentEnter(policy, s, t);
    case LeaveAction(t, succeeded) => ConsistentLeave(policy, s, t, succeeded);
    case Recheck(t) => ConsistentSetPhase(policy, s, t, s'.threads[t].phase);
    case Publish(t, _) =>
      var mid := s.(store := s'.store, log := s'.log);
      ConsistentSameQueue(policy, s, mid);
      ConsistentSetPhase(policy, mid, t, s'.threads[t].phase);
    case Release(t) => ConsistentRelease(policy, s, t);
  }

  lemma {:induction false} ConsistentEnter(policy: Policy, s: State, t: nat)
    requires Consistent(policy, s) && Can(policy, s, EnterAction(t))
    ensures Consistent(policy, Do(policy, s, EnterAction(t)))
  {
    var mid, phase := EnterMoves(policy, s, t);
    assert ThreadConsistent(s, t);
    ConsistentSameQueue(policy, s, mid);
    ConsistentSetPhase(policy, mid, t, phase);
  }

  /** An action's admission moves its thread, and touches only the action lists and the history. */
  lemma {:induction false} EnterMoves(policy: Policy, s: State, t: nat) returns (mid: State, phase: Phase)
    requires Can(policy, s, EnterAction(t))
    ensures mid == s.(active := mid.active, pending := mid.pending, histories := mid.histories)
    ensures Do(policy, s, EnterAction(t)) == SetPhase(mid, t, phase)
    ensures var before := s.threads[t].phase;
            && phase.Finishing? && phase.ticket == before.ticket && (phase.ok ==> before.ok)
            && phase.next == (if phase.mode == Between then before.next + 1 else before.next)
  {
    var s' := Do(policy, s, EnterAction(t));
    mid := s.(active := s'.active, pending := s'.pending, histories := s'.histories);
    phase := s'.threads[t].phase;
  }

  /** Bookkeeping does not look at the store, the actions or the log. */
  lemma {:induction false} ConsistentSameQueue(policy: Policy, s: State, s': State)
    requires Consistent(policy, s)
    requires s'.queue == s.queue && s'.holders == s.holders && s'.threads == s.threads
    ensures Consistent(policy, s')
  {
    forall t | t in s'.threads
      ensures ThreadConsistent(s', t)
    {
      assert ThreadConsistent(s, t);
    }
  }

  // --------------------------------------------------------- state invariant

  /** The batches of the log, executed one at a time on plain values. */
  function Serial(values: Values, log: seq<Commit>): Values {
    if log == [] then values
    else
      var last := log[|log| - 1];
      Effect(Serial(values, log[..|log| - 1]), last.access, last.updates)
  }

  /** Every declared key has, in `values`, exactly the value or absence the invocation saw. */
  ghost predicate SawThis(c: Commit, values: Values) {
    forall k :: k in c.declared ==> (k in values <==> k in c.seen) && (k in values ==> values[k] == c.seen[k])
  }

  ghost predicate SerialLog(initial: Values, log: seq<Commit>) {
    forall i :: 0 <= i < |log| ==> SawThis(log[i], Serial(initial, log[..i]))
  }

  /** A snapshot holds live entries that the store has since kept or outdated. */
  ghost predicate Historic(snapshot: Store, store: Store) {
    && WellVersioned(snapshot)
    && (forall k :: k in snapshot ==> !snapshot[k].deleted)
    && Advances(snapshot, store)
  }

  ghost predicate StillCurrent(s: State, th: Thread) {
    Current(th.agent.access, th.snapshot, Snapshot(s.store, th.agent.access), th.response)
  }

  ghost predicate Coherent(initial: Values, s: State) {
    && WellVersioned(s.store)
    && (forall t :: t in s.threads ==> Historic(s.threads[t].snapshot, s.store))
    && (forall t :: t in s.threads && s.threads[t].phase.Checked? ==> StillCurrent(s, s.threads[t]))
    && Live(s.store) == Serial(initial, s.log)
    && SerialLog(initial, s.log)
  }

  /** Equal versions mean equal entries, so a current dependency has the value that was seen. */
  lemma {:induction false} CurrentAgrees(s: State, th: Thread)
    requires WellVersioned(s.store) && Historic(th.snapshot, s.store) && StillCurrent(s, th)
    ensures SawThis(CommitOf(th), Live(s.store))
  {
    var access, response := th.agent.access, th.response;
    forall k | k in DeclaredKeys(access, response)
      ensures (k in Live(s.store) <==> k in Live(th.snapshot))
                && (k in Live(s.store) ==> Live(s.store)[k] == Live(th.snapshot)[k])
    {
      var scope, name := DeclaredAs(access, response, k);
      assert KeyCurrent(access, th.snapshot, Snapshot(s.store, access), response, scope, name);
      VersionInSnapshot(s.store, access, scope, name);
    }
  }

  lemma {:induction false} DeclaredAs(access: Access, response: Response, k: Key) returns (scope: Scope, name: string)
    requires k in DeclaredKeys(access, response)
    ensures Declares(response, scope, name) && access.KeyOf(scope, name) == k
    ensures ScopesAllowed(access, response) ==> scope in access.limits
  {
    if k in DependencyKeys(access, response) {
      var r :| r in response.dependencies && access.KeyOf(r.scope, r.name) == k;
      scope, name := r.scope, r.name;
    } else {
      var u :| u in response.updates && access.KeyOf(u.scope, u.name) == k;
      scope, name := u.scope, u.name;
      var i :| 0 <= i < |response.updates| && response.updates[i] == u;
    }
  }

  /** A decision that may still publish has kept its reserved keys. */
  lemma {:induction false} NotCleared(policy: Policy, s: State, t: nat)
    requires Consistent(policy, s) && t in s.threads && s.threads[t].phase.Checked?
    ensures var th := s.threads[t];
            && s.queue.Known(th.phase.ticket) && th.phase.ticket in s.queue.committing
            && th.phase.ticket < |s.holders| && s.holders[th.phase.ticket] == t
            && s.queue.arrivals[th.phase.ticket].readKeys == DependencyKeys(th.agent.access, th.response)
            && s.queue.arrivals[th.phase.ticket].writeKeys == UpdateKeys(th.agent.access, th.response)
  {
    assert ThreadConsistent(s, t);
    var th := s.threads[t];
    assert th.response.proposals != [] ==> th.survivors != [];
  }

  /** What a committing reservation may still write, no other committing reservation has reserved. */
  lemma {:induction false} WritersDisjoint(policy: Policy, s: State, t: nat, l: nat)
    requires Consistent(policy, s) && t in s.threads && s.threads[t].phase.Checked?
    requires l in s.queue.committing && s.queue.Known(l) && l != s.threads[t].phase.ticket
    ensures var th := s.threads[t];
            UpdateKeys(th.agent.access, th.response) !! s.queue.arrivals[l].readKeys + s.queue.arrivals[l].writeKeys
  {
    NotCleared(policy, s, t);
    var k := s.threads[t].phase.ticket;
    assert !R.Clash(policy, s.queue, k, l);
    var left, right := s.queue.arrivals[k], s.queue.arrivals[l];
    assert !R.StateConflict(left, right);
    forall key | key in left.writeKeys
      ensures key !in right.readKeys + right.writeKeys
    {
      assert key !in left.writeKeys * (right.readKeys + right.writeKeys);
    }
  }

  /** Changing only other keys leaves a declared dependency current. */
  lemma {:induction false} CurrentSurvives(s: State, th: Thread, after: Store)
    requires StillCurrent(s, th)
    requires forall k :: k in DeclaredKeys(th.agent.access, th.response)
                ==> (k in s.store <==> k in after) && (k in after ==> after[k] == s.store[k])
    ensures Current(th.agent.access, th.snapshot, Snapshot(after, th.agent.access), th.response)
  {
    var access, response := th.agent.access, th.response;
    forall scope, name | Declares(response, scope, name)
      ensures KeyCurrent(access, th.snapshot, Snapshot(after, access), response, scope, name)
    {
      assert KeyCurrent(access, th.snapshot, Snapshot(s.store, access), response, scope, name);
      DeclaredKeyIn(access, response, scope, name);
    }
  }

  lemma {:induction false} DeclaredKeyIn(access: Access, response: Response, scope: Scope, name: string)
    requires Declares(response, scope, name)
    ensures access.KeyOf(scope, name) in DeclaredKeys(access, response)
  {
    if Read(scope, name) in response.dependencies {
      assert access.KeyOf(Read(scope, name).scope, Read(scope, name).name) in DependencyKeys(access, response);
    } else {
      var i :| 0 <= i < |response.updates| && response.updates[i].scope == scope && response.updates[i].name == name;
      assert response.updates[i] in response.updates;
    }
  }

  /** Publishing moves the store forward and touches only the keys the decision updates. */
  lemma {:induction false} AttemptedShape(s: State, th: Thread, clock: Clock)
    requires WellVersioned(s.store)
    ensures var after := Attempted(s, th, clock).0;
            && WellVersioned(after) && Advances(s.store, after)
            && (forall k :: k !in UpdateKeys(th.agent.access, th.response)
                   ==> (k in s.store <==> k in after) && (k in after ==> after[k] == s.store[k]))
  {
    var access := th.agent.access;
    var bound := Bound(access, th.snapshot, th.response.updates);
    ApplyAdvances(s.store, access, bound, clock);
    forall k | k !in UpdateKeys(access, th.response)
      ensures forall u :: u in bound ==> access.KeyOf(u.scope, u.name) != k
    {
      forall u | u in bound
        ensures access.KeyOf(u.scope, u.name) != k
      {
        var i :| 0 <= i < |bound| && bound[i] == u;
        assert th.response.updates[i] in th.response.updates;
      }
    }
  }

  lemma {:induction false} PublishKeepsOthers(policy: Policy, initial: Values, s: State, t: nat, clock: Clock, u: nat)
    requires Consistent(policy, s) && Coherent(initial, s) && Can(policy, s, Publish(t, clock))
    requires u in s.threads && u != t && s.threads[u].phase.Checked?
    ensures StillCurrent(Do(policy, s, Publish(t, clock)), s.threads[u])
  {
    AttemptedShape(s, s.threads[t], clock);
    NotCleared(policy, s, t);
    NotCleared(policy, s, u);
    WritersDisjoint(policy, s, t, s.threads[u].phase.ticket);
    CurrentSurvives(s, s.threads[u], Attempted(s, s.threads[t], clock).0);
  }

  lemma {:induction false} PublishExtendsLog(policy: Policy, initial: Values, s: State, t: nat, clock: Clock)
    requires Coherent(initial, s) && Can(policy, s, Publish(t, clock))
    ensures var s' := Do(policy, s, Publish(t, clock));
            Live(s'.store) == Serial(initial, s'.log) && SerialLog(initial, s'.log)
  {
    var th := s.threads[t];
    CurrentAgrees(s, th);
    ApplyMeaning(s.store, th.agent.access, Bound(th.agent.access, th.snapshot, th.response.updates), clock);
    BoundEffect(th.agent.access, th.snapshot, th.response.updates, Live(s.store));
    assert (s.log + [CommitOf(th)])[..|s.log|] == s.log;
    SerialLogExtends(initial, s.log, CommitOf(th));
  }

  lemma {:induction false} AdvancesTwice(a: Store, b: Store, c: Store)
    requires Advances(a, b) && Advances(b, c)
    ensures Advances(a, c)
  {
  }

  lemma {:induction false} PublishKeepsHistoric(policy: Policy, initial: Values, s: State, t: nat, clock: Clock)
    requires Coherent(initial, s) && Can(policy, s, Publish(t, clock))
    ensures var s' := Do(policy, s, Publish(t, clock));
            WellVersioned(s'.store) && forall u :: u in s'.threads ==> Historic(s'.threads[u].snapshot, s'.store)
  {
    var s' := Do(policy, s, Publish(t, clock));
    AttemptedShape(s, s.threads[t], clock);
    forall u | u in s'.threads
      ensures Historic(s'.threads[u].snapshot, s'.store)
    {
      AdvancesTwice(s.threads[u].snapshot, s.store, s'.store);
    }
  }

  lemma {:induction false} PublishKeepsCurrent(policy: Policy, initial: Values, s: State, t: nat, clock: Clock)
    requires Consistent(policy, s) && Coherent(initial, s) && Can(policy, s, Publish(t, clock))
    ensures var s' := Do(policy, s, Publish(t, clock));
            forall u :: u in s'.threads && s'.threads[u].phase.Checked? ==> StillCurrent(s', s'.threads[u])
  {
    var s' := Do(policy, s, Publish(t, clock));
    forall u | u in s'.threads && s'.threads[u].phase.Checked?
      ensures StillCurrent(s', s'.threads[u])
    {
      PublishKeepsOthers(policy, initial, s, t, clock, u);
    }
  }

  lemma {:induction false} CoherentPublish(policy: Policy, initial: Values, s: State, t: nat, clock: Clock)
    requires Consistent(policy, s) && Coherent(initial, s) && Can(policy, s, Publish(t, clock))
    ensures Coherent(initial, Do(policy, s, Publish(t, clock)))
  {
    PublishKeepsHistoric(policy, initial, s, t, clock);
    PublishKeepsCurrent(policy, initial, s, t, clock);
    PublishExtendsLog(policy, initial, s, t, clock);
  }

  lemma {:induction false} SerialLogExtends(initial: Values, log: seq<Commit>, c: Commit)
    requires SerialLog(initial, log) && SawThis(c, Serial(initial, log))
    ensures SerialLog(initial, log + [c])
  {
    forall i | 0 <= i < |log| + 1
      ensures SawThis((log + [c])[i], Serial(initial, (log + [c])[..i]))
    {
      assert (log + [c])[..i] == log[..i];
      if i == |log| {
        assert log[..i] == log;
      }
    }
  }

  lemma {:induction false} CoherentFrame(initial: Values, s: State, s': State, t: nat)
    requires Coherent(initial, s)
    requires s'.store == s.store && s'.log == s.log
    requires t in s'.threads && s'.threads == s.threads[t := s'.threads[t]]
    requires Historic(s'.threads[t].snapshot, s'.store)
    requires s'.threads[t].phase.Checked? ==> StillCurrent(s', s'.threads[t])
    ensures Coherent(initial, s')
  {
    forall u | u in s'.threads && s'.threads[u].phase.Checked?
      ensures StillCurrent(s', s'.threads[u])
    {
      assert u != t ==> StillCurrent(s, s.threads[u]);
    }
  }

  /** Every other step leaves store and log alone and moves one thread. */
  lemma {:induction false} OtherSteps(policy: Policy, s: State, a: Action)
    requires Can(policy, s, a) && !a.Publish?
    ensures var s' := Do(policy, s, a);
            && s'.store == s.store && s'.log == s.log
            && a.t in s'.threads && s'.threads == s.threads[a.t := s'.threads[a.t]]
            && (if a.Prepare? then s'.threads[a.t].snapshot == Snapshot(s.store, a.agent.access)
                else a.t in s.threads && s'.threads[a.t].snapshot == s.threads[a.t].snapshot)
  {
  }

  lemma {:induction false} OnlyRecheckChecks(policy: Policy, s: State, a: Action)
    requires Can(policy, s, a) && !a.Publish?
    requires Do(policy, s, a).threads[a.t].phase.Checked?
    ensures StillCurrent(Do(policy, s, a), Do(policy, s, a).threads[a.t])
  {
    match a
    case Prepare(_, _, _) =>
    case Arrive(_, _, _) =>
    case Wake(_) =>
    case Begin(_) =>
    case SkipAction(_) =>
    case EnterAction(_) =>
    case LeaveAction(_, _) =>
    case Recheck(_) =>
    case Publish(_, _) =>
    case Release(_) =>
  }

  lemma {:induction false} CoherentStep(policy: Policy, initial: Values, s: State, a: Action)
    requires Consistent(policy, s) && Coherent(initial, s) && Can(policy, s, a)
    ensures Coherent(initial, Do(policy, s, a))
  {
    if a.Publish? {
      CoherentPublish(policy, initial, s, a.t, a.clock);
    } else {
      OtherSteps(policy, s, a);
      var s' := Do(policy, s, a);
      if s'.threads[a.t].phase.Checked? {
        OnlyRecheckChecks(policy, s, a);
      }
      CoherentFrame(initial, s, s', a.t);
    }
  }

  // ------------------------------------------------------- network invariant

  /** May survivor `j` of `th` still be admitted? */
  predicate Remaining(th: Thread, j: nat) {
    j < |th.survivors| &&
    match th.phase
    case Queued(_) => true
    case Finishing(_, next, mode, _) => if mode == Between then j >= next else j > next
    case _ => false
  }

  predicate Reserved(s: State, k: nat) {
    (k in s.queue.waiting || k in s.queue.committing) && s.queue.Known(k)
  }

  /** Under `reject`: reservations avoid one another, and what is left to do avoids what was done. */
  ghost predicate RejectSafe(s: State) {
    && (forall k: nat, l: nat :: Reserved(s, k) && Reserved(s, l) && k != l
          ==> Compatible(s.queue.arrivals[k].candidates, s.queue.arrivals[l].candidates))
    && (forall t :: t in s.threads && Holds(s.threads[t].phase) ==> ConflictFree(s.threads[t].survivors))
    && (forall t: nat, j: nat :: t in s.threads && Remaining(s.threads[t], j)
          ==> Avoids(s.History(s.threads[t].agent.request), s.threads[t].survivors[j]))
    && (forall r :: ConflictFree(s.History(r)))
  }

  ghost predicate Avoids(done: seq<Candidate>, c: Candidate) {
    forall i :: 0 <= i < |done| ==> !Conflicts(done[i], c)
  }

  ghost predicate ActingOn(s: State, c: Candidate) {
    var t := c.id.invocation;
    && t in s.threads && s.threads[t].phase.Finishing? && s.threads[t].phase.mode == Acting
    && s.threads[t].phase.next < |s.threads[t].survivors|
    && s.threads[t].survivors[s.threads[t].phase.next] == c
  }

  ghost predicate Exclusive(policy: Policy, s: State) {
    && s.pending == []
    && (forall t :: t in s.threads && s.threads[t].phase.Finishing? ==> s.threads[t].phase.mode != Blocked)
    && (forall c :: c in s.active ==> ActingOn(s, c))
    && NoRepeats(s.active)
    && (policy == Reject ==> RejectSafe(s))
  }

  /** Survivors of two different committing invocations never conflict. */
  lemma {:induction false} CommittersCompatible(policy: Policy, s: State, t: nat, u: nat)
    requires Consistent(policy, s) && Exclusive(policy, s)
    requires t in s.threads && u in s.threads && t != u
    requires s.threads[t].phase.Finishing? && s.threads[u].phase.Finishing?
    ensures Compatible(s.threads[t].survivors, s.threads[u].survivors)
  {
    assert ThreadConsistent(s, t) && ThreadConsistent(s, u);
    var k, l := s.threads[t].phase.ticket, s.threads[u].phase.ticket;
    if policy == Reject {
      assert Reserved(s, k) && Reserved(s, l) && k != l;
    } else {
      assert !R.Clash(policy, s.queue, k, l);
      assert !R.NetworkConflict(s.queue.arrivals[k], s.queue.arrivals[l]);
    }
  }

  /** The inner admission check is redundant: it never reports a winner and never waits. */
  lemma {:induction false} AdmitPasses(policy: Policy, s: State, t: nat)
    requires Consistent(policy, s) && Exclusive(policy, s)
    requires t in s.threads && AtAction(s.threads[t])
    ensures AdmitWinner(policy, s, s.threads[t]).None? && AdmitStarts(policy, s, s.threads[t])
  {
    var th := s.threads[t];
    var c := th.survivors[th.phase.next];
    forall other | other in s.active
      ensures !Conflicts(other, c)
    {
      assert ActingOn(s, other);
      CommittersCompatible(policy, s, other.id.invocation, t);
    }
    if policy == Reject {
      assert Remaining(th, th.phase.next);
      assert Avoids(s.History(th.agent.request), c);
      var all := s.History(th.agent.request) + s.active;
      assert forall i :: 0 <= i < |all| ==> !Conflicts(all[i], c);
    }
  }

  lemma {:induction false} ExclusiveEnter(policy: Policy, s: State, t: nat)
    requires Consistent(policy, s) && Exclusive(policy, s) && Can(policy, s, EnterAction(t))
    ensures Exclusive(policy, Do(policy, s, EnterAction(t)))
  {
    var s' := Do(policy, s, EnterAction(t));
    var th := s.threads[t];
    var c := th.survivors[th.phase.next];
    AdmitPasses(policy, s, t);
    assert ThreadConsistent(s, t);
    assert c in th.survivors;
    forall other | other in s'.active
      ensures ActingOn(s', other)
    {
      assert other != c ==> ActingOn(s, other);
    }
    assert c !in s.active by {
      assert c in s.active ==> ActingOn(s, c);
    }
    if policy == Reject {
      EnterShape(policy, s, t);
      RejectSafeEnter(policy, s, s', t);
    }
  }

  /** `s'` is `s` after thread `t` entered its next action. */
  ghost predicate Entered(s: State, s': State, t: nat) {
    && t in s.threads && AtAction(s.threads[t])
    && s'.queue == s.queue
    && s'.threads == s.threads[t := s.threads[t].(phase := s.threads[t].phase.(mode := Acting))]
    && var request := s.threads[t].agent.request;
       s'.histories == s.histories[request := s.History(request) + [s.threads[t].survivors[s.threads[t].phase.next]]]
  }

  lemma {:induction false} EnterShape(policy: Policy, s: State, t: nat)
    requires Can(policy, s, EnterAction(t))
    requires AdmitWinner(policy, s, s.threads[t]).None? && AdmitStarts(policy, s, s.threads[t])
    ensures Entered(s, Do(policy, s, EnterAction(t)), t)
  {
  }

  lemma {:induction false} RejectSafeEnter(policy: Policy, s: State, s': State, t: nat)
    requires Consistent(policy, s) && RejectSafe(s) && Entered(s, s', t)
    ensures RejectSafe(s')
  {
    forall u: nat, j: nat | u in s'.threads && Remaining(s'.threads[u], j)
      ensures Avoids(s'.History(s'.threads[u].agent.request), s'.threads[u].survivors[j])
    {
      assert Remaining(s.threads[u], j);
      EnteredAvoidsOthers(policy, s, t, u, j);
    }
    EnterKeepsHistories(s, s', t);
    forall k: nat, l: nat | Reserved(s', k) && Reserved(s', l) && k != l
      ensures Compatible(s'.queue.arrivals[k].candidates, s'.queue.arrivals[l].candidates)
    {
      assert Reserved(s, k) && Reserved(s, l);
    }
  }

  lemma {:induction false} EnterKeepsHistories(s: State, s': State, t: nat)
    requires RejectSafe(s) && Entered(s, s', t)
    ensures forall r :: ConflictFree(s'.History(r))
  {
    var th := s.threads[t];
    assert Remaining(th, th.phase.next);
    assert Avoids(s.History(th.agent.request), th.survivors[th.phase.next]);
    forall r
      ensures ConflictFree(s'.History(r))
    {
      assert ConflictFree(s.History(r));
    }
  }

  /** The action being entered has no conflict with what any thread still has to do. */
  lemma {:induction false} EnteredAvoidsOthers(policy: Policy, s: State, t: nat, u: nat, j: nat)
    requires Consistent(policy, s) && RejectSafe(s) && t in s.threads && AtAction(s.threads[t])
    requires u in s.threads && Remaining(s.threads[u], j) && (u == t ==> j > s.threads[t].phase.next)
    ensures !Conflicts(s.threads[t].survivors[s.threads[t].phase.next], s.threads[u].survivors[j])
    ensures Avoids(s.History(s.threads[u].agent.request), s.threads[u].survivors[j])
  {
    assert ThreadConsistent(s, t) && ThreadConsistent(s, u);
    if u != t {
      assert Reserved(s, s.threads[t].phase.ticket) && Reserved(s, s.threads[u].phase.ticket);
      assert s.threads[t].phase.ticket != s.threads[u].phase.ticket;
    }
  }

  ghost predicate NoRepeats(cs: seq<Candidate>) {
    forall i, j :: 0 <= i < j < |cs| ==> cs[i] != cs[j]
  }

  lemma {:induction false} RemoveOnce(cs: seq<Candidate>, c: Candidate)
    requires NoRepeats(cs)
    ensures var r := Admission.Remove(cs, c);
            NoRepeats(r) && (forall x :: x in r <==> x in cs && x != c)
  {
    if cs != [] {
      assert cs == [cs[0]] + cs[1..];
      assert cs[0] !in cs[1..];
      if cs[0] != c {
        RemoveOnce(cs[1..], c);
      }
    }
  }

  lemma {:induction false} ExclusiveLeave(policy: Policy, s: State, t: nat, succeeded: bool)
    requires Consistent(policy, s) && Exclusive(policy, s) && Can(policy, s, LeaveAction(t, succeeded))
    ensures Exclusive(policy, Do(policy, s, LeaveAction(t, succeeded)))
  {
    var s' := Do(policy, s, LeaveAction(t, succeeded));
    var th := s.threads[t];
    RemoveOnce(s.active, th.survivors[th.phase.next]);
    forall c | c in s'.active
      ensures ActingOn(s', c)
    {
      assert ActingOn(s, c);
    }
    if policy == Reject {
      RejectSafeShrinks(s, s', t);
    }
  }

  /** Finishing work, without admitting anything new, keeps the reject policy safe. */
  lemma {:induction false} RejectSafeShrinks(s: State, s': State, t: nat)
    requires RejectSafe(s) && t in s.threads && t in s'.threads
    requires s'.queue.arrivals == s.queue.arrivals && s'.histories == s.histories
    requires s'.queue.waiting + s'.queue.committing <= s.queue.waiting + s.queue.committing
    requires s'.threads == s.threads[t := s'.threads[t]]
    requires var a, b := s.threads[t], s'.threads[t];
             && b.survivors == a.survivors && b.agent == a.agent
             && (Holds(b.phase) ==> Holds(a.phase))
             && (forall j :: Remaining(b, j) ==> Remaining(a, j))
    ensures RejectSafe(s')
  {
    forall k: nat, l: nat | Reserved(s', k) && Reserved(s', l) && k != l
      ensures Compatible(s'.queue.arrivals[k].candidates, s'.queue.arrivals[l].candidates)
    {
      assert k in s'.queue.waiting + s'.queue.committing && l in s'.queue.waiting + s'.queue.committing;
      assert Reserved(s, k) && Reserved(s, l);
    }
    forall u: nat, j: nat | u in s'.threads && Remaining(s'.threads[u], j)
      ensures Avoids(s'.History(s'.threads[u].agent.request), s'.threads[u].survivors[j])
    {
      assert Remaining(s.threads[u], j);
    }
    forall r
      ensures ConflictFree(s'.History(r))
    {
      assert ConflictFree(s.History(r));
    }
  }

  lemma {:induction false} RejectSafeArrive(policy: Policy, s: State, a: Action)
    requires Consistent(policy, s) && Exclusive(policy, s) && policy == Reject && a.Arrive? && Can(policy, s, a)
    ensures RejectSafe(Do(policy, s, a))
  {
    var s' := Do(policy, s, a);
    var th, survivors := s.threads[a.t], Admission.Survivors(policy, a.admitted, a.ordered);
    Admission.SurvivorsCompatible(policy, a.admitted, a.ordered);
    forall k: nat, l: nat | Reserved(s', k) && Reserved(s', l) && k != l
      ensures Compatible(s'.queue.arrivals[k].candidates, s'.queue.arrivals[l].candidates)
    {
      ArrivalAvoids(policy, s, a, k, l);
    }
    forall u: nat, j: nat | u in s'.threads && Remaining(s'.threads[u], j)
      ensures Avoids(s'.History(s'.threads[u].agent.request), s'.threads[u].survivors[j])
    {
      if u == a.t {
        HistoryAvoids(s, a.admitted, th.agent.request, survivors, j);
      } else {
        assert Remaining(s.threads[u], j);
      }
    }
    forall r
      ensures ConflictFree(s'.History(r))
    {
      assert ConflictFree(s.History(r));
    }
  }

  lemma {:induction false} ArrivalAvoids(policy: Policy, s: State, a: Action, k: nat, l: nat)
    requires Consistent(policy, s) && Exclusive(policy, s) && policy == Reject && a.Arrive? && Can(policy, s, a)
    requires var s' := Do(policy, s, a); Reserved(s', k) && Reserved(s', l) && k != l
    ensures var s' := Do(policy, s, a); Compatible(s'.queue.arrivals[k].candidates, s'.queue.arrivals[l].candidates)
  {
    var s' := Do(policy, s, a);
    var th, survivors := s.threads[a.t], Admission.Survivors(policy, a.admitted, a.ordered);
    var n := |s.queue.arrivals|;
    Admission.SurvivorsCompatible(policy, a.admitted, a.ordered);
    ArrivalShape(policy, s.queue, Reserve(th, survivors));
    assert k in s'.queue.waiting + s'.queue.committing && l in s'.queue.waiting + s'.queue.committing;
    if k == n {
      ReservedAvoid(s, a.admitted, th.agent.request, l, survivors);
      CompatibleFlips(s.queue.arrivals[l].candidates, survivors);
    } else if l == n {
      ReservedAvoid(s, a.admitted, th.agent.request, k, survivors);
    } else {
      assert Reserved(s, k) && Reserved(s, l);
    }
  }

  lemma {:induction false} ReservedAvoid(s: State, admitted: seq<Candidate>, request: nat, k: nat,
                                         survivors: seq<Candidate>)
    requires ListsAdmitted(s, request, admitted) && Compatible(admitted, survivors) && Reserved(s, k)
    ensures Compatible(s.queue.arrivals[k].candidates, survivors)
  {
    var cs := s.queue.arrivals[k].candidates;
    forall i, j | 0 <= i < |cs| && 0 <= j < |survivors|
      ensures !Conflicts(cs[i], survivors[j])
    {
      assert cs[i] in admitted;
    }
  }

  lemma {:induction false} HistoryAvoids(s: State, admitted: seq<Candidate>, request: nat, survivors: seq<Candidate>,
                                         j: nat)
    requires ListsAdmitted(s, request, admitted) && Compatible(admitted, survivors) && j < |survivors|
    ensures Avoids(s.History(request), survivors[j])
  {
    forall i | 0 <= i < |s.History(request)|
      ensures !Conflicts(s.History(request)[i], survivors[j])
    {
      assert s.History(request)[i] in admitted;
    }
  }

  lemma {:induction false} CompatibleFlips(cs: seq<Candidate>, ds: seq<Candidate>)
    requires Compatible(cs, ds)
    ensures Compatible(ds, cs)
  {
    forall i, j | 0 <= i < |ds| && 0 <= j < |cs|
      ensures !Conflicts(ds[i], cs[j])
    {
      ConflictsSymmetric(ds[i], cs[j]);
    }
  }

  lemma {:induction false} ExclusiveStep(policy: Policy, s: State, a: Action)
    requires Consistent(policy, s) && Exclusive(policy, s) && Can(policy, s, a)
    ensures Exclusive(policy, Do(policy, s, a))
  {
    if a.EnterAction? {
      ExclusiveEnter(policy, s, a.t);
    } else if a.LeaveAction? {
      ExclusiveLeave(policy, s, a.t, a.succeeded);
    } else if a.Arrive? || a.Prepare? {
      var s' := Do(policy, s, a);
      KeepsActing(s, s', a.t);
      if policy == Reject {
        if a.Arrive? {
          RejectSafeArrive(policy, s, a);
        } else {
          RejectSafePrepare(s, s', a.t);
        }
      }
    } else {
      ExclusiveQuiet(policy, s, a);
    }
  }

  lemma {:induction false} ExclusiveQuiet(policy: Policy, s: State, a: Action)
    requires Consistent(policy, s) && Exclusive(policy, s) && Can(policy, s, a)
    requires !a.EnterAction? && !a.LeaveAction? && !a.Arrive? && !a.Prepare?
    ensures Exclusive(policy, Do(policy, s, a))
  {
    QuietShape(policy, s, a);
    ExclusiveIfQuiet(policy, s, Do(policy, s, a), a.t);
  }

  lemma {:induction false} ExclusiveIfQuiet(policy: Policy, s: State, s': State, t: nat)
    requires Exclusive(policy, s) && Quiet(s, s', t)
    ensures Exclusive(policy, s')
  {
    KeepsActing(s, s', t);
    if policy == Reject {
      RejectSafeShrinks(s, s', t);
    }
  }

  /** Nothing is admitted, and only thread `t` moves forward. */
  ghost predicate Quiet(s: State, s': State, t: nat) {
    && s'.queue.arrivals == s.queue.arrivals && s'.histories == s.histories
    && s'.active == s.active && s'.pending == s.pending
    && s'.queue.waiting + s'.queue.committing <= s.queue.waiting + s.queue.committing
    && t in s.threads && !(s.threads[t].phase.Finishing? && s.threads[t].phase.mode == Acting)
    && t in s'.threads && s'.threads == s.threads[t := s'.threads[t]]
    && (s'.threads[t].phase.Finishing? ==> s'.threads[t].phase.mode == Between)
    && s'.threads[t].survivors == s.threads[t].survivors && s'.threads[t].agent == s.threads[t].agent
    && (Holds(s'.threads[t].phase) ==> Holds(s.threads[t].phase))
    && (forall j: nat :: Remaining(s'.threads[t], j) ==> Remaining(s.threads[t], j))
  }

  lemma {:induction false} QuietShape(policy: Policy, s: State, a: Action)
    requires Can(policy, s, a)
    requires !a.EnterAction? && !a.LeaveAction? && !a.Arrive? && !a.Prepare?
    ensures Quiet(s, Do(policy, s, a), a.t)
  {
  }

  /** A step of a thread that is not acting leaves the active actions alone. */
  lemma {:induction false} KeepsActing(s: State, s': State, t: nat)
    requires forall c :: c in s.active ==> ActingOn(s, c)
    requires s'.active == s.active
    requires forall u :: u in s.threads && u != t ==> u in s'.threads && s'.threads[u] == s.threads[u]
    requires t in s.threads ==> !(s.threads[t].phase.Finishing? && s.threads[t].phase.mode == Acting)
    ensures forall c :: c in s'.active ==> ActingOn(s', c)
  {
    forall c | c in s'.active
      ensures ActingOn(s', c)
    {
      assert ActingOn(s, c);
    }
  }

  lemma {:induction false} RejectSafePrepare(s: State, s': State, t: nat)
    requires RejectSafe(s)
    requires s'.queue == s.queue && s'.histories == s.histories
    requires t !in s.threads && t in s'.threads && s'.threads == s.threads[t := s'.threads[t]]
             && s'.threads[t].phase.Deciding?
    ensures RejectSafe(s')
  {
    forall k: nat, l: nat | Reserved(s', k) && Reserved(s', l) && k != l
      ensures Compatible(s'.queue.arrivals[k].candidates, s'.queue.arrivals[l].candidates)
    {
      assert Reserved(s, k) && Reserved(s, l);
    }
    forall u: nat, j: nat | u in s'.threads && Remaining(s'.threads[u], j)
      ensures Avoids(s'.History(s'.threads[u].agent.request), s'.threads[u].survivors[j])
    {
      assert Remaining(s.threads[u], j);
    }
    forall r
      ensures ConflictFree(s'.History(r))
    {
      assert ConflictFree(s.History(r));
    }
  }

  // -------------------------------------------------------- request histories

  /** A history entry names an invocation that has arrived and will not admit that candidate again. */
  ghost predicate Recorded(s: State) {
    && (forall r :: DistinctIds(s.History(r)))
    && (forall r: nat, i: nat :: i < |s.History(r)| ==> Past(s, s.History(r)[i]))
  }

  ghost predicate Past(s: State, c: Candidate) {
    var t := c.id.invocation;
    && t in s.threads && !s.threads[t].phase.Deciding?
    && (forall j: nat :: Remaining(s.threads[t], j) ==> s.threads[t].survivors[j].id != c.id)
  }

  /** Steps that admit nothing keep the record. */
  lemma {:induction false} RecordedQuiet(s: State, s': State, t: nat)
    requires Recorded(s) && s'.histories == s.histories
    requires t in s'.threads && s'.threads == s.threads[t := s'.threads[t]]
    requires t in s.threads && !s.threads[t].phase.Deciding? ==>
               && !s'.threads[t].phase.Deciding?
               && s'.threads[t].survivors == s.threads[t].survivors
               && (forall j: nat :: Remaining(s'.threads[t], j) ==> Remaining(s.threads[t], j))
    ensures Recorded(s')
  {
    forall r: nat, i: nat | i < |s'.History(r)|
      ensures Past(s', s'.History(r)[i])
    {
      assert Past(s, s.History(r)[i]);
    }
    forall r
      ensures DistinctIds(s'.History(r))
    {
      assert DistinctIds(s.History(r));
    }
  }

  lemma {:induction false} EnteredHistory(s: State, s': State, t: nat, r: nat)
    requires Entered(s, s', t)
    ensures var c := s.threads[t].survivors[s.threads[t].phase.next];
            s'.History(r) == s.History(r) + if r == s.threads[t].agent.request then [c] else []
  {
    assert s.History(r) + [] == s.History(r);
  }

  lemma {:induction false} EnteredPast(s: State, s': State, t: nat, c: Candidate)
    requires Entered(s, s', t) && Past(s, c)
    ensures Past(s', c)
  {
    assert forall j: nat :: Remaining(s'.threads[t], j) ==> Remaining(s.threads[t], j);
  }

  lemma {:induction false} EnteredIsPast(policy: Policy, s: State, s': State, t: nat)
    requires Consistent(policy, s) && Entered(s, s', t)
    ensures Past(s', s.threads[t].survivors[s.threads[t].phase.next])
  {
    var th := s.threads[t];
    assert ThreadConsistent(s, t);
    assert th.survivors[th.phase.next] in th.survivors;
  }

  lemma {:induction false} RecordedEnter(policy: Policy, s: State, t: nat)
    requires Consistent(policy, s) && Exclusive(policy, s) && Recorded(s) && Can(policy, s, EnterAction(t))
    ensures Recorded(Do(policy, s, EnterAction(t)))
  {
    AdmitPasses(policy, s, t);
    EnterShape(policy, s, t);
    RecordedEntered(policy, s, Do(policy, s, EnterAction(t)), t);
  }

  lemma {:induction false} RecordedEntered(policy: Policy, s: State, s': State, t: nat)
    requires Consistent(policy, s) && Recorded(s) && Entered(s, s', t)
    ensures Recorded(s')
  {
    var c := s.threads[t].survivors[s.threads[t].phase.next];
    EnteredIsPast(policy, s, s', t);
    forall r: nat, i: nat | i < |s'.History(r)|
      ensures Past(s', s'.History(r)[i])
    {
      EnteredHistory(s, s', t, r);
      if i < |s.History(r)| {
        EnteredPast(s, s', t, s.History(r)[i]);
      }
    }
    forall r: nat
      ensures DistinctIds(s'.History(r))
    {
      EnteredHistory(s, s', t, r);
      EnteredIsNew(policy, s, s', t, r);
    }
  }

  lemma {:induction false} EnteredIsNew(policy: Policy, s: State, s': State, t: nat, r: nat)
    requires Consistent(policy, s) && Recorded(s) && Entered(s, s', t)
    ensures DistinctIds(s.History(r) + [s.threads[t].survivors[s.threads[t].phase.next]]) && DistinctIds(s.History(r))
  {
    var th := s.threads[t];
    assert ThreadConsistent(s, t);
    assert th.survivors[th.phase.next] in th.survivors;
    assert Remaining(th, th.phase.next);
    assert DistinctIds(s.History(r));
    forall i | 0 <= i < |s.History(r)|
      ensures s.History(r)[i].id != th.survivors[th.phase.next].id
    {
      assert Past(s, s.History(r)[i]);
    }
  }

  /** A step that admits nothing leaves the histories and moves its thread forward. */
  lemma {:induction false} RecordedShape(policy: Policy, s: State, a: Action)
    requires Can(policy, s, a) && !a.EnterAction?
    ensures var s' := Do(policy, s, a);
            && s'.histories == s.histories && a.t in s'.threads && s'.threads == s.threads[a.t := s'.threads[a.t]]
            && (a.t in s.threads && !s.threads[a.t].phase.Deciding? ==>
                  && !s'.threads[a.t].phase.Deciding?
                  && s'.threads[a.t].survivors == s.threads[a.t].survivors
                  && (forall j: nat :: Remaining(s'.threads[a.t], j) ==> Remaining(s.threads[a.t], j)))
  {
  }

  lemma {:induction false} RecordedStep(policy: Policy, s: State, a: Action)
    requires Consistent(policy, s) && Exclusive(policy, s) && Recorded(s) && Can(policy, s, a)
    ensures Recorded(Do(policy, s, a))
  {
    if a.EnterAction? {
      RecordedEnter(policy, s, a.t);
    } else {
      RecordedShape(policy, s, a);
      RecordedQuiet(s, Do(policy, s, a), a.t);
    }
  }

  // --------------------------------------------------------------------- runs

  /** The state after a schedule, if every action was possible in its turn. */
  ghost function Execute(policy: Policy, store: Store, schedule: seq<Action>): Option<State> {
    if schedule == [] then Some(Initial(store))
    else
      match Execute(policy, store, schedule[..|schedule| - 1])
      case None => None
      case Some(s) =>
        if Can(policy, s, schedule[|schedule| - 1]) then Some(Do(policy, s, schedule[|schedule| - 1])) else None
  }

  lemma {:induction false} ReachableSound(policy: Policy, store: Store, schedule: seq<Action>)
    requires WellVersioned(store) && Execute(policy, store, schedule).Some?
    ensures var s := Execute(policy, store, schedule).value;
            Consistent(policy, s) && Coherent(Live(store), s) && Exclusive(policy, s) && Recorded(s)
  {
    if schedule != [] {
      var n := |schedule| - 1;
      ReachableSound(policy, store, schedule[..n]);
      var s := Execute(policy, store, schedule[..n]).value;
      ConsistentStep(policy, s, schedule[n]);
      CoherentStep(policy, Live(store), s, schedule[n]);
      ExclusiveStep(policy, s, schedule[n]);
      RecordedStep(policy, s, schedule[n]);
    }
  }

  // ----------------------------------------------------------------- theorems

  /**
   * Serializability: after any interleaving the visible state is what the committed
   * batches produce one at a time in commit order, and at its turn each batch finds
   * every key it declared exactly as its invocation had seen it.
   */
  lemma {:induction false} Serializable(policy: Policy, store: Store, schedule: seq<Action>, s: State)
    requires WellVersioned(store) && Execute(policy, store, schedule) == Some(s)
    ensures Live(s.store) == Serial(Live(store), s.log)
    ensures forall i :: 0 <= i < |s.log| ==> SawThis(s.log[i], Serial(Live(store), s.log[..i]))
  {
    ReachableSound(policy, store, schedule);
  }

  /** Between its recheck and its publication, an invocation cannot be made stale. */
  lemma {:induction false} PublishNeverStale(policy: Policy, store: Store, schedule: seq<Action>, s: State, t: nat,
                                             clock: Clock)
    requires WellVersioned(store) && Execute(policy, store, schedule) == Some(s)
    requires t in s.threads && s.threads[t].phase.Checked?
    ensures var outcome := Attempted(s, s.threads[t], clock).1;
            outcome.Err? ==> outcome.error in {DuplicateUpdate, EntryMissing, CapacityExceeded}
  {
    ReachableSound(policy, store, schedule);
    var th := s.threads[t];
    CheckedNeverStale(s.store, th.agent.access, th.snapshot, th.response, clock);
  }

  /** While a reservation commits, no other invocation changes a key it reserved. */
  lemma {:induction false} ReservedKeysAreStable(policy: Policy, store: Store, schedule: seq<Action>, s: State,
                                                 a: Action, t: nat, k: Key)
    requires WellVersioned(store) && Execute(policy, store, schedule) == Some(s) && Can(policy, s, a)
    requires t in s.threads && t != a.t && Holds(s.threads[t].phase) && s.threads[t].phase.ticket in s.queue.committing
    requires s.threads[t].phase.ticket < |s.queue.arrivals|
    requires var r := s.queue.arrivals[s.threads[t].phase.ticket]; k in r.readKeys || k in r.writeKeys
    ensures var s' := Do(policy, s, a);
            (k in s.store <==> k in s'.store) && (k in s.store ==> s'.store[k] == s.store[k])
  {
    ReachableSound(policy, store, schedule);
    if a.Publish? {
      assert ThreadConsistent(s, t);
      NotCleared(policy, s, a.t);
      WritersDisjoint(policy, s, a.t, s.threads[t].phase.ticket);
      AttemptedShape(s, s.threads[a.t], a.clock);
    } else {
      OtherSteps(policy, s, a);
    }
  }

  /** Dropping the reserved keys of a wholly refused decision is safe: it never reaches publication. */
  lemma {:induction false} ClearedNeverPublishes(policy: Policy, store: Store, schedule: seq<Action>, s: State, t: nat)
    requires WellVersioned(store) && Execute(policy, store, schedule) == Some(s)
    requires t in s.threads && s.threads[t].phase.Checked?
    ensures var th := s.threads[t];
            && th.phase.ticket < |s.queue.arrivals|
            && s.queue.arrivals[th.phase.ticket].readKeys == DependencyKeys(th.agent.access, th.response)
            && s.queue.arrivals[th.phase.ticket].writeKeys == UpdateKeys(th.agent.access, th.response)
  {
    ReachableSound(policy, store, schedule);
    NotCleared(policy, s, t);
  }

  /**
   * The admission check nested in a decision is redundant under every policy: nothing
   * is ever pending, a surviving candidate starts at once and loses to no one, active
   * actions are pairwise conflict-free, and under `reject` so is each request's history.
   */
  lemma {:induction false} InnerAdmissionRedundant(policy: Policy, store: Store, schedule: seq<Action>, s: State)
    requires WellVersioned(store) && Execute(policy, store, schedule) == Some(s)
    ensures s.pending == []
    ensures forall t :: t in s.threads && AtAction(s.threads[t])
              ==> AdmitWinner(policy, s, s.threads[t]).None? && AdmitStarts(policy, s, s.threads[t])
    ensures ConflictFree(s.active)
    ensures policy == Reject ==> forall r :: ConflictFree(s.History(r))
  {
    ReachableSound(policy, store, schedule);
    forall t | t in s.threads && AtAction(s.threads[t])
      ensures AdmitWinner(policy, s, s.threads[t]).None? && AdmitStarts(policy, s, s.threads[t])
    {
      AdmitPasses(policy, s, t);
    }
    forall i, j | 0 <= i < j < |s.active|
      ensures !Conflicts(s.active[i], s.active[j])
    {
      assert s.active[i] in s.active && s.active[j] in s.active;
      assert ActingOn(s, s.active[i]) && ActingOn(s, s.active[j]);
      CommittersCompatible(policy, s, s.active[i].id.invocation, s.active[j].id.invocation);
    }
  }

  /** The next step of an invocation inside its commit section. */
  lemma {:induction false} CommitterCanMove(policy: Policy, s: State, t: nat) returns (a: Action)
    requires Consistent(policy, s) && Exclusive(policy, s)
    requires t in s.threads && Holds(s.threads[t].phase) && s.threads[t].phase.ticket in s.queue.committing
    ensures a.t == t && Can(policy, s, a) && (a.Release? ==> !AtAction(s.threads[t]))
  {
    assert ThreadConsistent(s, t);
    var th := s.threads[t];
    match th.phase
    case Queued(_) => a := Begin(t);
    case Finishing(_, next, mode, ok) =>
      if mode == Acting {
        a := LeaveAction(t, true);
      } else if next < |th.survivors| {
        a := EnterAction(t);
      } else if ok {
        a := Recheck(t);
      } else {
        a := Release(t);
      }
    case Checked(_) => a := Publish(t, _ => 0);
    case Settled(_) => a := Release(t);
  }

  /**
   * No schedule gets stuck: while any invocation holds a reservation, some holder has a
   * next step, and when nothing is committing that step grants the least waiter.
   */
  lemma {:induction false} NeverStuck(policy: Policy, store: Store, schedule: seq<Action>, s: State, t: nat)
    returns (a: Action)
    requires WellVersioned(store) && Execute(policy, store, schedule) == Some(s)
    requires t in s.threads && Holds(s.threads[t].phase)
    ensures Can(policy, s, a) && a.t in s.threads && Holds(s.threads[a.t].phase)
    ensures s.queue.committing == {} ==>
              && a.Wake? && s.threads[a.t].phase.Queued?
              && s.threads[a.t].phase.ticket in Do(policy, s, a).queue.committing
  {
    ReachableSound(policy, store, schedule);
    assert ThreadConsistent(s, t);
    if s.queue.committing != {} {
      var k :| k in s.queue.committing;
      a := CommitterCanMove(policy, s, s.holders[k]);
    } else {
      var k := R.LeastIsReady(policy, s.queue);
      assert s.threads[s.holders[k]].phase == Queued(k);
      a := Wake(s.holders[k]);
    }
  }

  /** No candidate enters a request's history twice, so its position there is its commit order. */
  lemma {:induction false} HistoryIdsDistinct(policy: Policy, store: Store, schedule: seq<Action>, s: State,
                                              request: nat)
    requires WellVersioned(store) && Execute(policy, store, schedule) == Some(s)
    ensures DistinctIds(s.History(request))
  {
    ReachableSound(policy, store, schedule);
  }
}
