/**
 * The lists of mininet_ai/coordination/admission.py, changed in place.
 *
 * A wait on the condition variable is split where the lock is given up: entering
 * (which looks once), waking (which looks again) and leaving. `sleepers` is the
 * wait set of the condition variable.
 */
module Admission {
  import opened Basics
  import opened Arbitration
  import opened SharedState
  import opened Reservations

  /** A reservation with the identity its queue entries share. */
  datatype Slot = Slot(ticket: nat, reservation: Reservation)

  /** The candidates one coordination request has admitted so far. */
  class History {
    var entries: seq<Candidate>

    constructor ()
      ensures entries == []
    {
      entries := [];
    }
  }

  function CandidatesOf(slots: seq<Slot>): seq<Candidate> {
    if slots == [] then [] else slots[0].reservation.candidates + CandidatesOf(slots[1..])
  }

  lemma {:induction false} CandidatesOfHas(slots: seq<Slot>, c: Candidate)
    ensures c in CandidatesOf(slots) <==> exists i :: 0 <= i < |slots| && c in slots[i].reservation.candidates
  {
    if slots != [] {
      CandidatesOfHas(slots[1..], c);
      if i :| 0 <= i < |slots| && c in slots[i].reservation.candidates {
        if i > 0 {
          assert slots[1..][i - 1] == slots[i];
        }
      }
      if i :| 0 <= i < |slots| - 1 && c in slots[1..][i].reservation.candidates {
        assert slots[i + 1] == slots[1..][i];
      }
    }
  }

  /** The earlier action each refused candidate loses to. */
  function Rejections(policy: Policy, admitted: seq<Candidate>, cs: seq<Candidate>): (r: map<CandidateId, Candidate>)
    ensures forall id :: id in r ==> exists k :: 0 <= k < |cs| && cs[k].id == id
  {
    if policy != Reject || cs == [] then map[]
    else
      var last := cs[|cs| - 1];
      var prior := Rejections(policy, admitted, cs[..|cs| - 1]);
      var winner := FirstConflict(admitted, last);
      assert forall k :: 0 <= k < |cs| - 1 ==> cs[..|cs| - 1][k] == cs[k];
      if winner.Some? then prior[last.id := winner.value] else prior
  }

  predicate Refused(policy: Policy, admitted: seq<Candidate>, c: Candidate) {
    policy == Reject && FirstConflict(admitted, c).Some?
  }

  /** The candidates a reservation keeps. */
  function Survivors(policy: Policy, admitted: seq<Candidate>, cs: seq<Candidate>): (r: seq<Candidate>)
    ensures forall s :: s in r ==> s in cs && !Refused(policy, admitted, s)
    ensures |r| <= |cs|
    ensures |r| == |cs| ==> r == cs
  {
    if cs == [] then []
    else
      var last := cs[|cs| - 1];
      var prior := Survivors(policy, admitted, cs[..|cs| - 1]);
      assert cs == cs[..|cs| - 1] + [last];
      if Refused(policy, admitted, last) then prior else prior + [last]
  }

  /** A candidate is reported as refused, with the action it lost to, exactly when it was. */
  lemma {:induction false} RejectionsExact(policy: Policy, admitted: seq<Candidate>, cs: seq<Candidate>, i: nat)
    requires DistinctIds(cs) && i < |cs|
    ensures var r := Rejections(policy, admitted, cs);
            && (cs[i].id in r <==> Refused(policy, admitted, cs[i]))
            && (cs[i].id in r ==> Some(r[cs[i].id]) == FirstConflict(admitted, cs[i]))
    decreases |cs|
  {
    var n := |cs| - 1;
    if i < n {
      RejectionsExact(policy, admitted, cs[..n], i);
      assert cs[i].id != cs[n].id;
    }
  }

  ghost predicate Pairwise(rel: (Candidate, Candidate) -> bool, cs: seq<Candidate>) {
    forall i, j :: 0 <= i < j < |cs| ==> rel(cs[i], cs[j])
  }

  lemma {:induction false} SurvivorsPairwise(policy: Policy, admitted: seq<Candidate>, cs: seq<Candidate>,
                                             rel: (Candidate, Candidate) -> bool)
    requires Pairwise(rel, cs)
    ensures Pairwise(rel, Survivors(policy, admitted, cs))
  {
    if cs != [] {
      var n := |cs| - 1;
      SurvivorsPairwise(policy, admitted, cs[..n], rel);
      forall s | s in Survivors(policy, admitted, cs[..n])
        ensures rel(s, cs[n])
      {
        assert s in cs[..n];
      }
    }
  }

  /** Survivors avoid everything admitted earlier and stay free of conflicts among themselves. */
  lemma {:induction false} SurvivorsCompatible(policy: Policy, admitted: seq<Candidate>, cs: seq<Candidate>)
    requires DistinctIds(cs)
    ensures var r := Survivors(policy, admitted, cs);
            && (policy == Reject ==> Compatible(admitted, r))
            && (ConflictFree(cs) ==> ConflictFree(r))
            && DistinctIds(r)
  {
    var r := Survivors(policy, admitted, cs);
    var distinct, apart := (a: Candidate, b: Candidate) => a.id != b.id, (a, b) => !Conflicts(a, b);
    SurvivorsPairwise(policy, admitted, cs, distinct);
    assert forall i, j :: 0 <= i < j < |r| ==> distinct(r[i], r[j]);
    if ConflictFree(cs) {
      assert Pairwise(apart, cs);
      SurvivorsPairwise(policy, admitted, cs, apart);
      assert forall i, j :: 0 <= i < j < |r| ==> apart(r[i], r[j]);
    }
    if policy == Reject {
      forall i, j | 0 <= i < |admitted| && 0 <= j < |r|
        ensures !Conflicts(admitted[i], r[j])
      {
        assert r[j] in r;
      }
    }
  }

  /** A decision whose every proposal was refused can never publish state, so it reserves none. */
  function MakeReservation(readKeys: set<Key>, writeKeys: set<Key>, proposed: bool, survivors: seq<Candidate>,
                           priority: int): Reservation {
    if proposed && survivors == [] then Reservation({}, {}, survivors, priority)
    else Reservation(readKeys, writeKeys, survivors, priority)
  }

  // ------------------------------------------------------------ list helpers

  function TicketsOf(slots: seq<Slot>): set<nat> {
    set s | s in slots :: s.ticket
  }

  /** `list.remove` for an element that occurs once. */
  function Without(slots: seq<Slot>, ticket: nat): (rest: seq<Slot>)
    ensures forall s :: s in rest <==> s in slots && s.ticket != ticket
  {
    if slots == [] then []
    else
      var last := slots[|slots| - 1];
      var rest := Without(slots[..|slots| - 1], ticket);
      if last.ticket == ticket then rest else rest + [last]
  }

  ghost predicate Increasing(slots: seq<Slot>) {
    forall i, j :: 0 <= i < j < |slots| ==> slots[i].ticket < slots[j].ticket
  }

  ghost predicate DistinctTickets(slots: seq<Slot>) {
    forall i, j :: 0 <= i < j < |slots| ==> slots[i].ticket != slots[j].ticket
  }

  lemma {:induction false} WithoutStaysIncreasing(slots: seq<Slot>, ticket: nat)
    requires Increasing(slots)
    ensures Increasing(Without(slots, ticket))
  {
    if slots != [] {
      WithoutStaysIncreasing(slots[..|slots| - 1], ticket);
      RestBelowLast(slots, Without(slots[..|slots| - 1], ticket));
    }
  }

  lemma {:induction false} RestBelowLast(slots: seq<Slot>, rest: seq<Slot>)
    requires slots != [] && Increasing(slots) && Increasing(rest)
    requires forall s :: s in rest ==> s in slots[..|slots| - 1]
    ensures Increasing(rest + [slots[|slots| - 1]])
  {
    forall i | 0 <= i < |rest|
      ensures rest[i].ticket < slots[|slots| - 1].ticket
    {
      assert rest[i] in rest;
    }
  }

  lemma {:induction false} WithoutStaysDistinct(slots: seq<Slot>, ticket: nat)
    requires DistinctTickets(slots)
    ensures DistinctTickets(Without(slots, ticket))
  {
    if slots != [] {
      WithoutStaysDistinct(slots[..|slots| - 1], ticket);
      RestWithoutLast(slots, Without(slots[..|slots| - 1], ticket));
    }
  }

  lemma {:induction false} RestWithoutLast(slots: seq<Slot>, rest: seq<Slot>)
    requires slots != [] && DistinctTickets(slots) && DistinctTickets(rest)
    requires forall s :: s in rest ==> s in slots[..|slots| - 1]
    ensures DistinctTickets(rest + [slots[|slots| - 1]])
  {
    forall i | 0 <= i < |rest|
      ensures rest[i].ticket != slots[|slots| - 1].ticket
    {
      assert rest[i] in rest;
    }
  }

  lemma {:induction false} WithoutTickets(slots: seq<Slot>, ticket: nat)
    ensures TicketsOf(Without(slots, ticket)) == TicketsOf(slots) - {ticket}
  {
  }

  lemma {:induction false} AppendTickets(slots: seq<Slot>, slot: Slot)
    ensures TicketsOf(slots + [slot]) == TicketsOf(slots) + {slot.ticket}
  {
  }

  function Remove(cs: seq<Candidate>, c: Candidate): seq<Candidate> {
    if cs == [] then []
    else if cs[0] == c then cs[1..]
    else [cs[0]] + Remove(cs[1..], c)
  }

  /** May the pending action `c` start? `earlier` are the pending ones listed before it, `later` after it. */
  ghost predicate AdmitReady(policy: Policy, active: seq<Candidate>, earlier: seq<Candidate>, later: seq<Candidate>,
                             c: Candidate)
  {
    && (forall other :: other in active ==> !Conflicts(other, c))
    && (forall other :: other in earlier && Conflicts(other, c)
          ==> policy == Priority && other.priority < c.priority)
    && (forall other :: other in later && Conflicts(other, c)
          ==> policy != Priority || other.priority <= c.priority)
  }

  lemma {:induction false} OneMoreSurvivor(policy: Policy, admitted: seq<Candidate>, cs: seq<Candidate>, i: nat)
    requires i < |cs| && DistinctIds(cs)
    ensures Survivors(policy, admitted, cs[..i + 1])
            == Survivors(policy, admitted, cs[..i]) + if cs[i].id in Rejections(policy, admitted, cs) then []
                else [cs[i]]
  {
    assert cs[..i + 1][..i] == cs[..i];
    RejectionsExact(policy, admitted, cs, i);
  }

  /** Keeps the candidates that were not rejected. */
  method Unrejected(policy: Policy, ghost admitted: seq<Candidate>, cs: seq<Candidate>,
                    rejections: map<CandidateId, Candidate>)
    returns (survivors: seq<Candidate>)
    requires DistinctIds(cs) && rejections == Rejections(policy, admitted, cs)
    ensures survivors == Survivors(policy, admitted, cs)
  {
    survivors := [];
    for i := 0 to |cs|
      invariant survivors == Survivors(policy, admitted, cs[..i])
    {
      OneMoreSurvivor(policy, admitted, cs, i);
      if cs[i].id !in rejections {
        survivors := survivors + [cs[i]];
      }
    }
    assert cs[..|cs|] == cs;
  }

  class ActionAdmission {
    const policy: Policy
    var active: seq<Candidate>
    var pending: seq<Candidate>
    var committing: seq<Slot>
    var waiting: seq<Slot>
    var sleepers: set<nat>
    var issued: nat
    ghost var arrivals: seq<Reservation>

    ghost predicate Valid()
      reads this
    {
      && issued == |arrivals|
      && Increasing(waiting)
      && DistinctTickets(committing)
      && (forall s :: s in waiting ==> s.ticket < issued && arrivals[s.ticket] == s.reservation)
      && (forall s :: s in committing ==> s.ticket < issued && arrivals[s.ticket] == s.reservation)
      && TicketsOf(waiting) !! TicketsOf(committing)
      && sleepers <= TicketsOf(waiting)
      && DistinctIds(pending)
    }

    /** The queue these lists stand for. */
    ghost function View(): Queue
      reads this
    {
      Queue(arrivals, TicketsOf(waiting), TicketsOf(committing), sleepers)
    }

    /** Everything a new candidate must avoid under the reject policy, in search order. */
    function Admitted(history: seq<Candidate>): seq<Candidate>
      reads this
    {
      history + active + CandidatesOf(committing + waiting)
    }

    constructor (policy: Policy)
      ensures Valid() && this.policy == policy
      ensures View() == EMPTY_QUEUE && active == [] && pending == []
    {
      this.policy := policy;
      active, pending, committing, waiting := [], [], [], [];
      sleepers, issued, arrivals := {}, 0, [];
    }

    method FindRejections(cs: seq<Candidate>, history: seq<Candidate>) returns (rejections: map<CandidateId, Candidate>)
      ensures rejections == Rejections(policy, Admitted(history), cs)
    {
      rejections := map[];
      if policy != Reject {
        return;
      }
      var admitted := Admitted(history);
      for i := 0 to |cs|
        invariant rejections == Rejections(policy, admitted, cs[..i])
      {
        assert cs[..i + 1][..i] == cs[..i];
        var winner := FirstConflict(admitted, cs[i]);
        if winner.Some? {
          rejections := rejections[cs[i].id := winner.value];
        }
      }
      assert cs[..|cs|] == cs;
    }

    /** Evaluates the wait predicate by list position, which is ticket order. */
    method DecisionReady(slot: Slot) returns (ready: bool)
      requires Valid() && slot in waiting
      ensures Tickets(View()) && ready == Ready(policy, View(), slot.ticket)
    {
      assert Tickets(View());
      for i := 0 to |committing|
        invariant forall k :: 0 <= k < i ==> !DecisionConflicts(policy, slot.reservation, committing[k].reservation)
      {
        if DecisionConflicts(policy, slot.reservation, committing[i].reservation) {
          assert Clash(policy, View(), slot.ticket, committing[i].ticket);
          return false;
        }
      }
      var index :| 0 <= index < |waiting| && waiting[index] == slot;
      for i := 0 to |waiting|
        invariant forall k :: 0 <= k < i && waiting[k] != slot
                    && DecisionConflicts(policy, slot.reservation, waiting[k].reservation)
                    ==> !Ahead(policy, View(), waiting[k].ticket, slot.ticket)
      {
        var other := waiting[i];
        if other != slot && DecisionConflicts(policy, slot.reservation, other.reservation) {
          assert other.ticket < slot.ticket <==> i < index;
          assert Clash(policy, View(), slot.ticket, other.ticket);
          if policy == Priority {
            if -other.reservation.priority < -slot.reservation.priority
               || (-other.reservation.priority == -slot.reservation.priority && i < index) {
              assert Ahead(policy, View(), other.ticket, slot.ticket);
              return false;
            }
          } else if i < index {
            assert Ahead(policy, View(), other.ticket, slot.ticket);
            return false;
          }
        }
      }
      ready := true;
      ReadyFromLists(slot);
    }

    lemma {:induction false} ReadyFromLists(slot: Slot)
      requires Valid() && slot in waiting
      requires forall s :: s in committing ==> !DecisionConflicts(policy, slot.reservation, s.reservation)
      requires forall s :: s in waiting && s != slot && DecisionConflicts(policy, slot.reservation, s.reservation)
                           ==> !Ahead(policy, View(), s.ticket, slot.ticket)
      ensures Tickets(View()) && Ready(policy, View(), slot.ticket)
    {
      forall u | u in View().committing
        ensures !Clash(policy, View(), slot.ticket, u)
      {
        var s :| s in committing && s.ticket == u;
      }
      forall u | u in View().waiting && u != slot.ticket && Clash(policy, View(), slot.ticket, u)
        ensures !Ahead(policy, View(), u, slot.ticket)
      {
        var s :| s in waiting && s.ticket == u;
      }
    }

    /** One look at the wait predicate: commit, or join the wait set. */
    method Look(slot: Slot) returns (granted: bool)
      requires Valid() && slot in waiting
      modifies this`waiting, this`committing, this`sleepers
      ensures Valid() && Tickets(old(View()))
      ensures View() == Attempt(policy, old(View()), slot.ticket)
      ensures granted <==> slot in committing
    {
      granted := DecisionReady(slot);
      if granted {
        WithoutStaysIncreasing(waiting, slot.ticket);
        WithoutTickets(waiting, slot.ticket);
        AppendTickets(committing, slot);
        waiting := Without(waiting, slot.ticket);
        committing := committing + [slot];
        sleepers := sleepers - {slot.ticket};
      } else {
        sleepers := sleepers + {slot.ticket};
        assert slot.ticket in TicketsOf(waiting);
      }
    }

    /** The first critical section of `decision`, up to the end of its first wait. */
    method EnterDecision(readKeys: set<Key>, writeKeys: set<Key>, proposed: bool, cs: seq<Candidate>, priority: int,
                         history: History)
      returns (slot: Slot, rejections: map<CandidateId, Candidate>, granted: bool)
      requires Valid() && DistinctIds(cs)
      modifies this`waiting, this`committing, this`sleepers, this`issued, this`arrivals
      ensures Valid() && Tickets(old(View()))
      ensures rejections == Rejections(policy, old(Admitted(history.entries)), cs)
      ensures slot == Slot(old(issued), MakeReservation(readKeys, writeKeys, proposed,
                                          Survivors(policy, old(Admitted(history.entries)), cs), priority))
      ensures View() == Next(policy, old(View()), Arrive(slot.reservation))
      ensures granted <==> slot in committing
    {
      rejections := FindRejections(cs, history.entries);
      ghost var admitted := Admitted(history.entries);
      var survivors := Unrejected(policy, admitted, cs, rejections);
      slot, granted := Join(MakeReservation(readKeys, writeKeys, proposed, survivors, priority));
    }

    /** A reservation takes the next ticket, joins the waiting list and looks once. */
    method Join(reservation: Reservation) returns (slot: Slot, granted: bool)
      requires Valid()
      modifies this`waiting, this`committing, this`sleepers, this`issued, this`arrivals
      ensures Valid() && Tickets(old(View()))
      ensures slot == Slot(old(issued), reservation)
      ensures View() == Next(policy, old(View()), Arrive(reservation))
      ensures granted <==> slot in committing
    {
      slot := Slot(issued, reservation);
      AppendTickets(waiting, slot);
      waiting := waiting + [slot];
      arrivals := arrivals + [reservation];
      issued := issued + 1;
      assert View() == Append(old(View()), reservation);
      granted := Look(slot);
    }

    /** A notified waiter reacquires the lock and looks again. */
    method WakeDecision(slot: Slot) returns (granted: bool)
      requires Valid() && slot in waiting && slot.ticket !in sleepers
      modifies this`waiting, this`committing, this`sleepers
      ensures Valid() && Tickets(old(View())) && Possible(old(View()), Wake(slot.ticket))
      ensures View() == Next(policy, old(View()), Wake(slot.ticket))
      ensures granted <==> slot in committing
    {
      granted := Look(slot);
    }

    /** The critical section in the `finally` clause of `decision`. */
    method LeaveDecision(slot: Slot)
      requires Valid() && slot in committing
      modifies this`committing, this`sleepers
      ensures Valid() && Tickets(old(View())) && Possible(old(View()), Leave(slot.ticket))
      ensures View() == Next(policy, old(View()), Leave(slot.ticket))
    {
      WithoutStaysDistinct(committing, slot.ticket);
      WithoutTickets(committing, slot.ticket);
      committing := Without(committing, slot.ticket);
      sleepers := {};
    }

    method ActionReady(index: nat) returns (ready: bool)
      requires Valid() && index < |pending|
      ensures ready == AdmitReady(policy, active, pending[..index], pending[index + 1..], pending[index])
    {
      var c := pending[index];
      for i := 0 to |active|
        invariant forall k :: 0 <= k < i ==> !Conflicts(active[k], c)
      {
        if Conflicts(active[i], c) {
          return false;
        }
      }
      for i := 0 to |pending|
        invariant forall k :: 0 <= k < i && k < index && Conflicts(pending[k], c) ==>
                  policy == Priority && pending[k].priority < c.priority
        invariant forall k :: 0 <= k < i && k > index && Conflicts(pending[k], c) ==>
                  policy != Priority || pending[k].priority <= c.priority
      {
        var other := pending[i];
        if i != index && Conflicts(other, c) {
          assert i < index ==> other == pending[..index][i];
          assert i > index ==> other == pending[index + 1..][i - index - 1];
          if policy == Priority {
            if -other.priority < -c.priority || (-other.priority == -c.priority && i < index) {
              return false;
            }
          } else if i < index {
            return false;
          }
        }
      }
      ready := true;
    }

    static lemma {:induction false} AppendedParts(before: seq<Candidate>, c: Candidate)
      ensures var longer := before + [c];
              longer[..|before|] == before && longer[|before| + 1..] == [] && longer[|before|] == c
    {
    }

    /** The first critical section of `admit`, up to the end of its first wait. */
    method EnterAdmit(c: Candidate, history: History) returns (winner: Option<Candidate>, started: bool)
      requires Valid() && forall other :: other in pending ==> other.id != c.id
      modifies this`active, this`pending, history
      ensures Valid()
      ensures winner == if policy == Reject then FirstConflict(old(history.entries + active), c) else None
      ensures started <==> winner.None? && AdmitReady(policy, old(active), old(pending), [], c)
      ensures active == old(active) + if started then [c] else []
      ensures history.entries == old(history.entries) + if started then [c] else []
      ensures pending == old(pending) + if winner.None? && !started then [c] else []
    {
      winner := if policy == Reject then FirstConflict(history.entries + active, c) else None;
      started := false;
      if winner.None? {
        pending := pending + [c];
        AppendedParts(old(pending), c);
        started := ActionReady(|pending| - 1);
        if started {
          pending := pending[..|pending| - 1];
          active := active + [c];
          history.entries := history.entries + [c];
        }
      }
    }

    /** The critical section in the `finally` clause of `admit`: every sleeper is notified. */
    method LeaveAdmit(c: Candidate)
      requires Valid()
      modifies this`active, this`sleepers
      ensures Valid() && Tickets(old(View()))
      ensures active == Remove(old(active), c)
      ensures View() == Next(policy, old(View()), NotifyAll)
    {
      active := Remove(active, c);
      sleepers := {};
    }
  }
}
