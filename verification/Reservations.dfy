/**
 * The reservation queue of mininet_ai/coordination/admission.py as a machine.
 *
 * Tickets number reservations in order of arrival; a ticket is the identity
 * the source keeps by object reference. Every event is one critical section
 * of the shared condition variable.
 */
module Reservations {
  import opened Basics
  import opened Arbitration
  import opened SharedState

  datatype Reservation = Reservation(readKeys: set<Key>, writeKeys: set<Key>, candidates: seq<Candidate>, priority: int)

  predicate StateConflict(left: Reservation, right: Reservation) {
    left.writeKeys * (right.readKeys + right.writeKeys) != {} || right.writeKeys * left.readKeys != {}
  }

  predicate NetworkConflict(left: Reservation, right: Reservation) {
    exists i, j :: 0 <= i < |left.candidates| && 0 <= j < |right.candidates|
      && Conflicts(left.candidates[i], right.candidates[j])
  }

  /** Under `reject` network conflicts are settled on arrival and never make anyone wait. */
  predicate DecisionConflicts(policy: Policy, left: Reservation, right: Reservation) {
    StateConflict(left, right) || (policy != Reject && NetworkConflict(left, right))
  }

  lemma {:induction false} DecisionConflictsSymmetric(policy: Policy, left: Reservation, right: Reservation)
    ensures DecisionConflicts(policy, left, right) == DecisionConflicts(policy, right, left)
  {
    assert StateConflict(left, right) == StateConflict(right, left) by {
      assert left.writeKeys * (right.readKeys + right.writeKeys)
             == left.writeKeys * right.readKeys + left.writeKeys * right.writeKeys;
      assert right.writeKeys * (left.readKeys + left.writeKeys)
             == right.writeKeys * left.readKeys + right.writeKeys * left.writeKeys;
      assert left.writeKeys * right.writeKeys == right.writeKeys * left.writeKeys;
    }
    NetworkConflictFlips(left, right);
    NetworkConflictFlips(right, left);
  }

  lemma {:induction false} NetworkConflictFlips(left: Reservation, right: Reservation)
    ensures NetworkConflict(left, right) ==> NetworkConflict(right, left)
  {
    if NetworkConflict(left, right) {
      var i, j :| 0 <= i < |left.candidates| && 0 <= j < |right.candidates|
                  && Conflicts(left.candidates[i], right.candidates[j]);
      ConflictsSymmetric(left.candidates[i], right.candidates[j]);
    }
  }

  /** `waiting` and `committing` hold tickets; `asleep` are waiters not notified since they last looked. */
  datatype Queue = Queue(arrivals: seq<Reservation>, waiting: set<nat>, committing: set<nat>, asleep: set<nat>) {
    predicate Known(t: nat) {
      t < |arrivals|
    }

    predicate Released(t: nat) {
      Known(t) && t !in waiting && t !in committing
    }
  }

  const EMPTY_QUEUE := Queue([], {}, {}, {})

  ghost predicate Tickets(q: Queue) {
    && (forall t :: t in q.waiting ==> q.Known(t))
    && (forall t :: t in q.committing ==> q.Known(t))
    && q.waiting !! q.committing
    && q.asleep <= q.waiting
  }

  predicate Clash(policy: Policy, q: Queue, t: nat, u: nat)
    requires q.Known(t) && q.Known(u)
  {
    DecisionConflicts(policy, q.arrivals[t], q.arrivals[u])
  }

  /** Must waiter `u` be served before waiter `t` when they clash? */
  predicate Ahead(policy: Policy, q: Queue, u: nat, t: nat)
    requires q.Known(t) && q.Known(u)
  {
    if policy == Priority then
      q.arrivals[u].priority > q.arrivals[t].priority
      || (q.arrivals[u].priority == q.arrivals[t].priority && u < t)
    else u < t
  }

  ghost predicate Ready(policy: Policy, q: Queue, t: nat)
    requires Tickets(q) && q.Known(t)
  {
    && (forall u :: u in q.committing ==> !Clash(policy, q, t, u))
    && (forall u :: u in q.waiting && u != t && Clash(policy, q, t, u) ==> !Ahead(policy, q, u, t))
  }

  // ------------------------------------------------------------------ events

  /** Evaluating the wait predicate: leave the queue for the commit section, or sleep. */
  ghost function Attempt(policy: Policy, q: Queue, t: nat): Queue
    requires Tickets(q) && t in q.waiting
  {
    if Ready(policy, q, t) then
      q.(waiting := q.waiting - {t}, committing := q.committing + {t}, asleep := q.asleep - {t})
    else q.(asleep := q.asleep + {t})
  }

  function Append(q: Queue, r: Reservation): Queue {
    q.(arrivals := q.arrivals + [r], waiting := q.waiting + {|q.arrivals|})
  }

  datatype Event =
    | Arrive(reservation: Reservation)
    | Wake(ticket: nat)
    | Leave(ticket: nat)
    | NotifyAll

  predicate Possible(q: Queue, e: Event) {
    match e
    case Arrive(_) => true
    case Wake(t) => t in q.waiting && t !in q.asleep
    case Leave(t) => t in q.committing
    case NotifyAll => true
  }

  ghost function Next(policy: Policy, q: Queue, e: Event): Queue
    requires Tickets(q) && Possible(q, e)
  {
    match e
    case Arrive(r) => Attempt(policy, Append(q, r), |q.arrivals|)
    case Wake(t) => Attempt(policy, q, t)
    case Leave(t) => q.(committing := q.committing - {t}, asleep := {})
    case NotifyAll => q.(asleep := {})
  }

  // --------------------------------------------------------------- invariant

  ghost predicate CommittingDisjoint(policy: Policy, q: Queue)
    requires Tickets(q)
  {
    forall t, u :: t in q.committing && u in q.committing && t != u ==> !Clash(policy, q, t, u)
  }

  /** No wake-up is lost: a sleeper that has not been notified could not proceed anyway. */
  ghost predicate SleepersBlocked(policy: Policy, q: Queue)
    requires Tickets(q)
  {
    forall t :: t in q.asleep ==> !Ready(policy, q, t)
  }

  /** Once the later of two clashing reservations is granted, the earlier one has come and gone. */
  ghost predicate ArrivalOrder(policy: Policy, q: Queue)
    requires Tickets(q)
  {
    forall t, u :: q.Known(u) && t < u && Clash(policy, q, t, u) && u !in q.waiting ==> q.Released(t)
  }

  ghost predicate Sound(policy: Policy, q: Queue) {
    && Tickets(q)
    && CommittingDisjoint(policy, q)
    && SleepersBlocked(policy, q)
    && (policy != Priority ==> ArrivalOrder(policy, q))
  }

  lemma {:induction false} AppendSound(policy: Policy, q: Queue, r: Reservation)
    requires Sound(policy, q)
    ensures Sound(policy, Append(q, r))
  {
    var q' := Append(q, r);
    forall t, u | q.Known(t) && q.Known(u)
      ensures Clash(policy, q', t, u) == Clash(policy, q, t, u)
      ensures Ahead(policy, q', u, t) == Ahead(policy, q, u, t)
    {
    }
    forall t | t in q'.asleep
      ensures !Ready(policy, q', t)
    {
      assert !Ready(policy, q, t);
    }
    if policy != Priority {
      forall t, u | q'.Known(u) && t < u && Clash(policy, q', t, u) && u !in q'.waiting
        ensures q'.Released(t)
      {
        assert q.Known(u) && q.Released(t);
      }
    }
  }

  /** Granting one waiter unblocks nobody: whoever waited for it now waits for its commit. */
  lemma {:induction false} GrantKeepsBlocked(policy: Policy, q: Queue, t: nat, s: nat)
    requires Tickets(q) && t in q.waiting && s in q.waiting && s != t
    requires Ready(policy, q, t) && !Ready(policy, q, s)
    ensures Tickets(Attempt(policy, q, t)) && !Ready(policy, Attempt(policy, q, t), s)
  {
    var q' := Attempt(policy, q, t);
    if u :| u in q.committing && Clash(policy, q, s, u) {
      assert u in q'.committing && Clash(policy, q', s, u);
    } else {
      var u :| u in q.waiting && u != s && Clash(policy, q, s, u) && Ahead(policy, q, u, s);
      if u == t {
        assert u in q'.committing && Clash(policy, q', s, u);
      } else {
        assert u in q'.waiting && Clash(policy, q', s, u) && Ahead(policy, q', u, s);
      }
    }
  }

  lemma {:induction false} GrantKeepsOrder(policy: Policy, q: Queue, t: nat)
    requires Sound(policy, q) && policy != Priority
    requires t in q.waiting && Ready(policy, q, t)
    ensures Tickets(Attempt(policy, q, t)) && ArrivalOrder(policy, Attempt(policy, q, t))
  {
    var q' := Attempt(policy, q, t);
    forall s: nat, u: nat | q'.Known(u) && s < u && Clash(policy, q', s, u) && u !in q'.waiting
      ensures q'.Released(s)
    {
      assert Clash(policy, q, s, u);
      if u == t {
        DecisionConflictsSymmetric(policy, q.arrivals[s], q.arrivals[u]);
        assert Clash(policy, q, t, s);
      } else {
        assert q.Released(s);
      }
    }
  }

  lemma {:induction false} AttemptSound(policy: Policy, q: Queue, t: nat)
    requires Sound(policy, q) && t in q.waiting
    ensures Sound(policy, Attempt(policy, q, t))
  {
    var q' := Attempt(policy, q, t);
    if Ready(policy, q, t) {
      forall s | s in q'.asleep
        ensures !Ready(policy, q', s)
      {
        GrantKeepsBlocked(policy, q, t, s);
      }
      forall s, u | s in q'.committing && u in q'.committing && s != u
        ensures !Clash(policy, q', s, u)
      {
        DecisionConflictsSymmetric(policy, q.arrivals[s], q.arrivals[u]);
        assert !Clash(policy, q, t, u) || u == t;
        assert !Clash(policy, q, t, s) || s == t;
        if s != t && u != t {
          assert !Clash(policy, q, s, u);
        }
      }
      if policy != Priority {
        GrantKeepsOrder(policy, q, t);
      }
    } else {
      assert q'.arrivals == q.arrivals && q'.waiting == q.waiting && q'.committing == q.committing;
      forall s | s in q'.asleep
        ensures !Ready(policy, q', s)
      {
        assert Ready(policy, q', s) == Ready(policy, q, s);
      }
      if policy != Priority {
        OrderDependsOn(policy, q, q');
      }
    }
  }

  lemma {:induction false} OrderDependsOn(policy: Policy, q: Queue, q': Queue)
    requires Tickets(q) && Tickets(q') && ArrivalOrder(policy, q)
    requires q'.arrivals == q.arrivals && q'.waiting == q.waiting && q'.committing <= q.committing
    ensures ArrivalOrder(policy, q')
  {
    forall t, u | q'.Known(u) && t < u && Clash(policy, q', t, u) && u !in q'.waiting
      ensures q'.Released(t)
    {
      assert q.Known(u) && Clash(policy, q, t, u);
      assert q.Released(t);
    }
  }

  lemma {:induction false} NextSound(policy: Policy, q: Queue, e: Event)
    requires Sound(policy, q) && Possible(q, e)
    ensures Sound(policy, Next(policy, q, e))
  {
    match e
    case Arrive(r) =>
      AppendSound(policy, q, r);
      AttemptSound(policy, Append(q, r), |q.arrivals|);
    case Wake(t) =>
      AttemptSound(policy, q, t);
    case Leave(t) =>
      LeaveSound(policy, q, t);
    case NotifyAll =>
      if policy != Priority {
        OrderDependsOn(policy, q, Next(policy, q, e));
      }
  }

  lemma {:induction false} LeaveSound(policy: Policy, q: Queue, t: nat)
    requires Sound(policy, q) && t in q.committing
    ensures Sound(policy, Next(policy, q, Leave(t)))
  {
    var q' := Next(policy, q, Leave(t));
    forall s, u | s in q'.committing && u in q'.committing && s != u
      ensures !Clash(policy, q', s, u)
    {
      assert !Clash(policy, q, s, u);
    }
    if policy != Priority {
      OrderDependsOn(policy, q, q');
    }
  }

  // -------------------------------------------------------------------- runs

  /** The queue after a run of events from the empty queue, if each was possible in its turn. */
  ghost function Run(policy: Policy, events: seq<Event>): Option<Queue> {
    if events == [] then Some(EMPTY_QUEUE)
    else
      match Run(policy, events[..|events| - 1])
      case None => None
      case Some(q) =>
        if Tickets(q) && Possible(q, events[|events| - 1]) then Some(Next(policy, q, events[|events| - 1])) else None
  }

  lemma {:induction false} RunSound(policy: Policy, events: seq<Event>)
    requires Run(policy, events).Some?
    ensures Sound(policy, Run(policy, events).value)
  {
    if events != [] {
      var n := |events| - 1;
      RunSound(policy, events[..n]);
      NextSound(policy, Run(policy, events[..n]).value, events[n]);
    }
  }

  // ---------------------------------------------------------------- theorems

  /** `t` is a waiter that is ahead of every other waiter. */
  ghost predicate Least(policy: Policy, q: Queue, among: set<nat>, t: nat)
    requires forall u :: u in among ==> q.Known(u)
  {
    t in among && forall u :: u in among && u != t ==> Ahead(policy, q, t, u)
  }

  lemma {:induction false} LeastExists(policy: Policy, q: Queue, among: set<nat>) returns (t: nat)
    requires forall u :: u in among ==> q.Known(u)
    requires among != {}
    ensures Least(policy, q, among, t)
    decreases among
  {
    var u :| u in among;
    if among == {u} {
      t := u;
    } else {
      var s := LeastExists(policy, q, among - {u});
      t := if Ahead(policy, q, s, u) then s else u;
      forall v | v in among && v != t
        ensures Ahead(policy, q, t, v)
      {
        assert v == u || v == s || (v in among - {u} && Ahead(policy, q, s, v));
      }
    }
  }

  /** With nothing committing, the least waiter is ready, and so not asleep. */
  lemma {:induction false} LeastIsReady(policy: Policy, q: Queue) returns (t: nat)
    requires Sound(policy, q) && q.waiting != {} && q.committing == {}
    ensures Least(policy, q, q.waiting, t) && Ready(policy, q, t) && t !in q.asleep
  {
    t := LeastExists(policy, q, q.waiting);
    forall u | u in q.waiting && u != t
      ensures !Ahead(policy, q, u, t)
    {
      assert Ahead(policy, q, t, u);
    }
  }

  /**
   * No deadlock: whenever reservations wait and nothing is committing, the least
   * waiter in policy order is not asleep, and its next look grants it.
   */
  lemma {:induction false} NoDeadlock(policy: Policy, events: seq<Event>, q: Queue) returns (t: nat)
    requires Run(policy, events) == Some(q)
    requires q.waiting != {} && q.committing == {}
    ensures Tickets(q) && Least(policy, q, q.waiting, t)
    ensures Possible(q, Wake(t)) && t in Next(policy, q, Wake(t)).committing
  {
    RunSound(policy, events);
    t := LeastIsReady(policy, q);
  }

  /** No lost wake-up: in every reachable state an unnotified sleeper is not ready. */
  lemma {:induction false} NoLostWakeup(policy: Policy, events: seq<Event>, q: Queue, t: nat)
    requires Run(policy, events) == Some(q)
    requires t in q.asleep
    ensures Tickets(q) && q.Known(t) && !Ready(policy, q, t)
  {
    RunSound(policy, events);
  }

  /**
   * Only leaving the commit section can make a blocked waiter ready, and that
   * event notifies every sleeper.
   */
  lemma {:induction false} OnlyLeavingEnables(policy: Policy, q: Queue, e: Event, t: nat)
    requires Tickets(q) && Possible(q, e)
    requires t in q.waiting && !Ready(policy, q, t)
    ensures var q' := Next(policy, q, e);
            && Tickets(q') && t in q'.waiting
            && (if e.Leave? then q'.asleep == {} else !Ready(policy, q', t))
  {
    match e
    case Arrive(r) =>
      AppendKeepsBlocked(policy, q, r, t);
      AttemptKeepsBlocked(policy, Append(q, r), |q.arrivals|, t);
    case Wake(s) =>
      AttemptKeepsBlocked(policy, q, s, t);
    case Leave(s) =>
    case NotifyAll =>
      SameQueueSameReady(policy, q, Next(policy, q, e), t);
  }

  lemma {:induction false} AppendKeepsBlocked(policy: Policy, q: Queue, r: Reservation, t: nat)
    requires Tickets(q) && t in q.waiting && !Ready(policy, q, t)
    ensures Tickets(Append(q, r)) && !Ready(policy, Append(q, r), t)
  {
    var a := Append(q, r);
    if u :| u in q.committing && Clash(policy, q, t, u) {
      assert u in a.committing && Clash(policy, a, t, u);
    } else {
      var u :| u in q.waiting && u != t && Clash(policy, q, t, u) && Ahead(policy, q, u, t);
      assert u in a.waiting && Clash(policy, a, t, u) && Ahead(policy, a, u, t);
    }
  }

  lemma {:induction false} SameQueueSameReady(policy: Policy, q: Queue, q': Queue, t: nat)
    requires Tickets(q) && Tickets(q') && q.Known(t)
    requires q'.arrivals == q.arrivals && q'.waiting == q.waiting && q'.committing == q.committing
    ensures Ready(policy, q', t) == Ready(policy, q, t)
  {
    assert forall u :: q.Known(u) ==> Clash(policy, q', t, u) == Clash(policy, q, t, u);
    assert forall u :: q.Known(u) ==> Ahead(policy, q', u, t) == Ahead(policy, q, u, t);
  }

  lemma {:induction false} AttemptKeepsBlocked(policy: Policy, q: Queue, t: nat, s: nat)
    requires Tickets(q) && t in q.waiting && s in q.waiting && !Ready(policy, q, s)
    ensures var q' := Attempt(policy, q, t); Tickets(q') && s in q'.waiting && !Ready(policy, q', s)
  {
    if s != t && Ready(policy, q, t) {
      GrantKeepsBlocked(policy, q, t, s);
    } else {
      SameQueueSameReady(policy, q, Attempt(policy, q, t), s);
    }
  }

  /**
   * Under `serialize` and `reject`, clashing decisions are granted and released in
   * arrival order: once the later one has left the queue, the earlier one has been released.
   */
  lemma {:induction false} ClashesKeepArrivalOrder(policy: Policy, events: seq<Event>, q: Queue, t: nat, u: nat)
    requires Run(policy, events) == Some(q) && policy != Priority
    requires q.Known(u) && t < u && Clash(policy, q, t, u) && u !in q.waiting
    ensures q.Released(t)
  {
    RunSound(policy, events);
  }

  /**
   * Under every policy a grant finds no clashing commit in progress, and every
   * clashing waiter comes later in policy order: for `priority`, it has lower
   * priority, or equal priority and a later arrival.
   */
  lemma {:induction false} GrantsRespectPolicy(policy: Policy, q: Queue, e: Event, t: nat, u: nat)
    requires Tickets(q) && Possible(q, e)
    requires var q' := Next(policy, q, e);
             && t in q'.committing && t !in q.committing
             && (u in q'.committing || u in q'.waiting) && u != t
             && q'.Known(t) && q'.Known(u) && Clash(policy, q', t, u)
    ensures var q' := Next(policy, q, e);
            && u in q'.waiting
            && (policy == Priority ==>
                  || q'.arrivals[u].priority < q'.arrivals[t].priority
                  || (q'.arrivals[u].priority == q'.arrivals[t].priority && t < u))
            && (policy != Priority ==> t < u)
  {
    var q' := Next(policy, q, e);
    var before := if e.Arrive? then Append(q, e.reservation) else q;
    assert Ready(policy, before, t);
    assert Clash(policy, before, t, u);
    assert u in before.waiting && !Ahead(policy, before, u, t);
  }

  /** Clashing tickets of which `u` is ahead, with `t` still waiting unless `u` was released. */
  ghost predicate InTurn(policy: Policy, q: Queue, t: nat, u: nat) {
    && q.Known(t) && q.Known(u) && Clash(policy, q, t, u) && Ahead(policy, q, u, t) && t != u
    && (t !in q.waiting ==> q.Released(u))
  }

  lemma {:induction false} AttemptInTurn(policy: Policy, q: Queue, s: nat, t: nat, u: nat)
    requires Tickets(q) && s in q.waiting && InTurn(policy, q, t, u)
    ensures InTurn(policy, Attempt(policy, q, s), t, u)
  {
    if s == t && Ready(policy, q, t) {
      assert q.Released(u);
    }
  }

  lemma {:induction false} NextInTurn(policy: Policy, q: Queue, e: Event, t: nat, u: nat)
    requires Tickets(q) && Possible(q, e) && InTurn(policy, q, t, u)
    ensures InTurn(policy, Next(policy, q, e), t, u)
  {
    match e
    case Arrive(r) =>
      assert InTurn(policy, Append(q, r), t, u);
      AttemptInTurn(policy, Append(q, r), |q.arrivals|, t, u);
    case Wake(s) => AttemptInTurn(policy, q, s, t, u);
    case Leave(_) =>
    case NotifyAll =>
  }

  /**
   * Nobody is overtaken, under any policy: once two clashing tickets both wait and `u` is
   * ahead of `t`, then in every later state `t` is still waiting unless `u` was released.
   */
  lemma {:induction false} NoOvertaking(policy: Policy, events: seq<Event>, more: seq<Event>, q: Queue, later: Queue,
                                        t: nat, u: nat)
    requires Run(policy, events) == Some(q) && Run(policy, events + more) == Some(later)
    requires q.Known(t) && q.Known(u) && t in q.waiting && u in q.waiting && t != u
    requires Clash(policy, q, t, u) && Ahead(policy, q, u, t)
    ensures InTurn(policy, later, t, u)
    decreases |more|
  {
    if more == [] {
      assert events + more == events;
    } else {
      var n := |more| - 1;
      assert (events + more)[..|events + more| - 1] == events + more[..n];
      var before := Run(policy, events + more[..n]).value;
      NoOvertaking(policy, events, more[..n], q, before, t, u);
      NextInTurn(policy, before, more[n], t, u);
    }
  }
}
