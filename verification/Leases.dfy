/**
 * Invocation budgets: leases allocated under the coordinator's condition and released
 * across threads (mininet_ai/coordination/routing.py, `InvocationLease` and
 * `_allocate_invocation`).
 */
module Leases {
  import opened Basics

  /**
   * Closing a lease first sets its flag under its own lock, and then runs the release
   * callback under the coordinator's condition: `Closing` is the moment in between.
   */
  datatype Phase = Open | Closing | Closed

  datatype Lease = Lease(agent: string, phase: Phase)

  datatype Limits = Limits(agents: seq<string>, all: nat, each: map<string, nat>)

  datatype Pool = Pool(active: int, byAgent: map<string, int>, leases: seq<Lease>)

  predicate Available(limits: Limits, pool: Pool, agent: string)
    requires agent in pool.byAgent && agent in limits.each
  {
    pool.active < limits.all && pool.byAgent[agent] < limits.each[agent]
  }

  // --------------------------------------------------------------------- steps

  function Allocate(pool: Pool, agent: string): Pool
    requires agent in pool.byAgent
  {
    Pool(pool.active + 1, pool.byAgent[agent := pool.byAgent[agent] + 1], pool.leases + [Lease(agent, Open)])
  }

  /** Only the first close of a lease has an effect. */
  function Close(pool: Pool, k: nat): Pool
    requires k < |pool.leases|
  {
    var lease := pool.leases[k];
    if lease.phase == Open then pool.(leases := pool.leases[k := lease.(phase := Closing)]) else pool
  }

  function Release(pool: Pool, k: nat): Pool
    requires k < |pool.leases| && pool.leases[k].agent in pool.byAgent
  {
    var lease := pool.leases[k];
    Pool(pool.active - 1, pool.byAgent[lease.agent := pool.byAgent[lease.agent] - 1],
         pool.leases[k := lease.(phase := Closed)])
  }

  // ----------------------------------------------------------------- invariants

  /** Leases in a phase, of one agent or of all. */
  function Count(leases: seq<Lease>, phase: Phase, agent: Option<string>): nat {
    if leases == [] then 0
    else
      var last := leases[|leases| - 1];
      Count(leases[..|leases| - 1], phase, agent)
      + if last.phase == phase && (agent.None? || agent.value == last.agent) then 1 else 0
  }

  function Sum(byAgent: map<string, int>, agents: seq<string>): int {
    if agents == [] then 0
    else
      var last := agents[|agents| - 1];
      Sum(byAgent, agents[..|agents| - 1]) + if last in byAgent then byAgent[last] else 0
  }

  ghost predicate WellFormed(limits: Limits) {
    Distinct(limits.agents) && forall agent :: agent in limits.each <==> agent in limits.agents
  }

  /** What an agent's own count amounts to. */
  ghost predicate AgentBalanced(limits: Limits, pool: Pool, agent: string)
    requires agent in pool.byAgent && agent in limits.each
  {
    && pool.byAgent[agent] == Count(pool.leases, Open, Some(agent)) + Count(pool.leases, Closing, Some(agent))
    && pool.byAgent[agent] <= limits.each[agent]
  }

  ghost predicate Balanced(limits: Limits, pool: Pool) {
    && WellFormed(limits)
    && (forall agent :: agent in pool.byAgent <==> agent in limits.agents)
    && (forall lease :: lease in pool.leases ==> lease.agent in limits.agents)
    && pool.active == Count(pool.leases, Open, None) + Count(pool.leases, Closing, None)
    && pool.active == Sum(pool.byAgent, limits.agents)
    && pool.active <= limits.all
    && forall agent :: agent in limits.agents ==> AgentBalanced(limits, pool, agent)
  }

  lemma {:induction false} CountAdded(leases: seq<Lease>, lease: Lease, phase: Phase, agent: Option<string>)
    ensures Count(leases + [lease], phase, agent)
            == Count(leases, phase, agent) + if lease.phase == phase && (agent.None? || agent.value == lease.agent)
                then 1 else 0
  {
    assert (leases + [lease])[..|leases|] == leases;
  }

  lemma {:induction false} CountMoved(leases: seq<Lease>, k: nat, to: Phase, phase: Phase, agent: Option<string>)
    requires k < |leases|
    ensures var counted := agent.None? || agent.value == leases[k].agent;
            Count(leases[k := leases[k].(phase := to)], phase, agent)
                + (if counted && leases[k].phase == phase then 1 else 0)
            == Count(leases, phase, agent) + (if counted && to == phase then 1 else 0)
    decreases |leases|
  {
    var n := |leases| - 1;
    var moved := leases[k := leases[k].(phase := to)];
    if k < n {
      CountMoved(leases[..n], k, to, phase, agent);
      assert moved[..n] == leases[..n][k := leases[k].(phase := to)];
    } else {
      assert moved[..n] == leases[..n];
    }
  }

  lemma {:induction false} SumUpdated(byAgent: map<string, int>, agents: seq<string>, agent: string, count: int)
    requires Distinct(agents) && agent in byAgent
    ensures Sum(byAgent[agent := count], agents) == Sum(byAgent, agents) + if agent in agents
              then count - byAgent[agent] else 0
  {
    if agents != [] {
      var n := |agents| - 1;
      SumUpdated(byAgent, agents[..n], agent, count);
      assert agents == agents[..n] + [agents[n]];
      assert agents[n] !in agents[..n];
    }
  }

  lemma {:induction false} AllocateKeepsBalanced(limits: Limits, pool: Pool, agent: string)
    requires Balanced(limits, pool) && agent in limits.agents && Available(limits, pool, agent)
    ensures Balanced(limits, Allocate(pool, agent))
  {
    var pool' := Allocate(pool, agent);
    SumUpdated(pool.byAgent, limits.agents, agent, pool.byAgent[agent] + 1);
    CountAdded(pool.leases, Lease(agent, Open), Open, None);
    CountAdded(pool.leases, Lease(agent, Open), Closing, None);
    forall other | other in limits.agents
      ensures AgentBalanced(limits, pool', other)
    {
      assert AgentBalanced(limits, pool, other);
      CountAdded(pool.leases, Lease(agent, Open), Open, Some(other));
      CountAdded(pool.leases, Lease(agent, Open), Closing, Some(other));
    }
  }

  lemma {:induction false} CloseKeepsBalanced(limits: Limits, pool: Pool, k: nat)
    requires Balanced(limits, pool) && k < |pool.leases|
    ensures Balanced(limits, Close(pool, k))
  {
    var pool' := Close(pool, k);
    if pool.leases[k].phase == Open {
      assert pool.leases[k] in pool.leases;
      CountMoved(pool.leases, k, Closing, Open, None);
      CountMoved(pool.leases, k, Closing, Closing, None);
      forall other | other in limits.agents
        ensures AgentBalanced(limits, pool', other)
      {
        assert AgentBalanced(limits, pool, other);
        CountMoved(pool.leases, k, Closing, Open, Some(other));
        CountMoved(pool.leases, k, Closing, Closing, Some(other));
      }
    }
  }

  lemma {:induction false} ReleaseKeepsBalanced(limits: Limits, pool: Pool, k: nat)
    requires Balanced(limits, pool) && k < |pool.leases| && pool.leases[k].phase == Closing
    ensures pool.leases[k].agent in pool.byAgent
    ensures Balanced(limits, Release(pool, k))
  {
    var agent := pool.leases[k].agent;
    assert pool.leases[k] in pool.leases;
    var pool' := Release(pool, k);
    SumUpdated(pool.byAgent, limits.agents, agent, pool.byAgent[agent] - 1);
    CountMoved(pool.leases, k, Closed, Open, None);
    CountMoved(pool.leases, k, Closed, Closing, None);
    forall other | other in limits.agents
      ensures AgentBalanced(limits, pool', other)
    {
      assert AgentBalanced(limits, pool, other);
      ReleaseKeepsAgent(limits, pool, k, other);
    }
  }

  lemma {:induction false} ReleaseKeepsAgent(limits: Limits, pool: Pool, k: nat, other: string)
    requires k < |pool.leases| && pool.leases[k].phase == Closing && pool.leases[k].agent in pool.byAgent
    requires other in pool.byAgent && other in limits.each && AgentBalanced(limits, pool, other)
    ensures AgentBalanced(limits, Release(pool, k), other)
  {
    CountMoved(pool.leases, k, Closed, Open, Some(other));
    CountMoved(pool.leases, k, Closed, Closing, Some(other));
  }

  // ----------------------------------------------------------------------- runs

  /** A reservation, a close of some lease by some thread, or the callback of a closing lease. */
  datatype Action = Reserving(agent: string) | ClosingLease(lease: nat) | Calling(lease: nat)

  ghost predicate Possible(limits: Limits, pool: Pool, action: Action) {
    match action
    case Reserving(agent) => agent in pool.byAgent && agent in limits.each && Available(limits, pool, agent)
    case ClosingLease(k) => k < |pool.leases|
    case Calling(k) => k < |pool.leases| && pool.leases[k].phase == Closing && pool.leases[k].agent in pool.byAgent
  }

  ghost function Act(limits: Limits, pool: Pool, action: Action): Pool
    requires Possible(limits, pool, action)
  {
    match action
    case Reserving(agent) => Allocate(pool, agent)
    case ClosingLease(k) => Close(pool, k)
    case Calling(k) => Release(pool, k)
  }

  ghost function Run(limits: Limits, actions: seq<Action>): Pool {
    if actions == [] then Pool(0, map agent | agent in limits.agents :: 0, [])
    else
      var pool := Run(limits, actions[..|actions| - 1]);
      var action := actions[|actions| - 1];
      if Possible(limits, pool, action) then Act(limits, pool, action) else pool
  }

  lemma {:induction false} SumZero(byAgent: map<string, int>, agents: seq<string>)
    requires forall agent :: agent in byAgent ==> byAgent[agent] == 0
    ensures Sum(byAgent, agents) == 0
  {
    if agents != [] {
      SumZero(byAgent, agents[..|agents| - 1]);
    }
  }

  /**
   * Under every interleaving the active count is the number of leases whose callback has
   * not run, and the sum of the agents' counts; no count is negative or over its limit.
   */
  lemma {:induction false} EveryRunBalanced(limits: Limits, actions: seq<Action>)
    requires WellFormed(limits)
    ensures Balanced(limits, Run(limits, actions)) && Run(limits, actions).active >= 0
    ensures forall agent :: agent in limits.agents ==> Run(limits, actions).byAgent[agent] >= 0
  {
    if actions == [] {
      SumZero(Run(limits, []).byAgent, limits.agents);
    } else {
      var pool := Run(limits, actions[..|actions| - 1]);
      EveryRunBalanced(limits, actions[..|actions| - 1]);
      if Possible(limits, pool, actions[|actions| - 1]) {
        match actions[|actions| - 1]
        case Reserving(agent) => AllocateKeepsBalanced(limits, pool, agent);
        case ClosingLease(k) => CloseKeepsBalanced(limits, pool, k);
        case Calling(k) => ReleaseKeepsBalanced(limits, pool, k);
      }
    }
    assert forall agent :: agent in limits.agents ==> AgentBalanced(limits, Run(limits, actions), agent);
  }

  /** The active count is exactly the number of open leases whenever no close is halfway. */
  lemma {:induction false} ActiveCountsOpen(limits: Limits, actions: seq<Action>)
    requires WellFormed(limits)
    ensures Run(limits, actions).active == Count(Run(limits, actions).leases, Open, None)
            <==> forall lease :: lease in Run(limits, actions).leases ==> lease.phase != Closing
  {
    EveryRunBalanced(limits, actions);
    NoneClosing(Run(limits, actions).leases);
  }

  lemma {:induction false} NoneClosing(leases: seq<Lease>)
    ensures Count(leases, Closing, None) == 0 <==> forall lease :: lease in leases ==> lease.phase != Closing
  {
    if leases != [] {
      var n := |leases| - 1;
      NoneClosing(leases[..n]);
      assert leases == leases[..n] + [leases[n]];
    }
  }

  function Calls(actions: seq<Action>, k: nat, effective: seq<bool>): nat
    requires |effective| == |actions|
  {
    if actions == [] then 0
    else
      var n := |actions| - 1;
      Calls(actions[..n], k, effective[..n]) + if actions[n] == Calling(k) && effective[n] then 1 else 0
  }

  /** Which actions of a run had their turn. */
  ghost function Effective(limits: Limits, actions: seq<Action>): (effective: seq<bool>)
    ensures |effective| == |actions|
  {
    if actions == [] then []
    else
      var n := |actions| - 1;
      Effective(limits, actions[..n]) + [Possible(limits, Run(limits, actions[..n]), actions[n])]
  }

  /** However often and from however many threads a lease is closed, its callback runs at most once. */
  lemma {:induction false} ReleasedAtMostOnce(limits: Limits, actions: seq<Action>, k: nat)
    ensures Calls(actions, k, Effective(limits, actions))
            == if k < |Run(limits, actions).leases| && Run(limits, actions).leases[k].phase == Closed then 1 else 0
  {
    if actions != [] {
      var n := |actions| - 1;
      ReleasedAtMostOnce(limits, actions[..n], k);
      assert Effective(limits, actions)[..n] == Effective(limits, actions[..n]);
    }
  }

  // ------------------------------------------------------------------- the pool

  class InvocationSlots {
    const limits: Limits
    var active: int
    var byAgent: map<string, int>
    ghost var leases: seq<Lease>

    ghost function View(): Pool
      reads this
    {
      Pool(active, byAgent, leases)
    }

    ghost predicate Valid()
      reads this
    {
      Balanced(limits, View())
    }

    constructor (limits: Limits)
      requires WellFormed(limits)
      ensures this.limits == limits && Valid() && View() == Run(limits, [])
    {
      this.limits := limits;
      active, byAgent, leases := 0, map agent | agent in limits.agents :: 0, [];
      EveryRunBalanced(limits, []);
    }

    /** Allocates a lease if a slot is free; otherwise the caller waits. */
    method TryReserve(agent: string) returns (reserved: bool)
      requires Valid() && agent in limits.agents
      modifies this
      ensures Valid()
      ensures agent in old(byAgent) && (reserved <==> Available(limits, old(View()), agent))
      ensures View() == if reserved then Allocate(old(View()), agent) else old(View())
    {
      reserved := active < limits.all && byAgent[agent] < limits.each[agent];
      if reserved {
        AllocateKeepsBalanced(limits, View(), agent);
        AllocateSlot(agent);
      }
    }

    method AllocateSlot(agent: string)
      requires agent in byAgent
      modifies this
      ensures View() == Allocate(old(View()), agent)
    {
      active := active + 1;
      byAgent := byAgent[agent := byAgent[agent] + 1];
      leases := leases + [Lease(agent, Open)];
    }

    /** The release callback of a lease that is being closed. */
    method RunRelease(agent: string, ghost k: nat)
      requires Valid() && k < |leases| && leases[k] == Lease(agent, Closing)
      modifies this
      ensures Valid() && agent in old(byAgent) && View() == Release(old(View()), k)
    {
      ReleaseKeepsBalanced(limits, View(), k);
      active := active - 1;
      byAgent := byAgent[agent := byAgent[agent] - 1];
      leases := leases[k := Lease(agent, Closed)];
    }
  }

  /** A lease of a pool; `number` is its place among the pool's leases. */
  class InvocationLease {
    const slots: InvocationSlots
    const agent: string
    ghost const number: nat
    var released: bool

    /** Outside a close, the flag says whether the callback has run. */
    ghost predicate Valid()
      reads this, slots
    {
      && slots.Valid() && number < |slots.leases|
      && slots.leases[number] == Lease(agent, if released then Closed else Open)
    }

    constructor (slots: InvocationSlots, agent: string, ghost number: nat)
      requires slots.Valid() && number < |slots.leases| && slots.leases[number] == Lease(agent, Open)
      ensures Valid() && !released && this.slots == slots && this.number == number
    {
      this.slots, this.agent, this.number, released := slots, agent, number, false;
    }

    /** Gives the slot back on the first close and does nothing afterwards. */
    method CloseLease()
      requires Valid()
      modifies this, slots
      ensures Valid() && released
      ensures old(released) ==> slots.View() == old(slots.View())
      ensures !old(released) ==>
                && agent in old(slots.byAgent)
                && slots.View() == Release(Close(old(slots.View()), number), number)
    {
      if !released {
        released := true;
        MarkClosing();
        slots.RunRelease(agent, number);
      }
    }

    ghost method MarkClosing()
      requires slots.Valid() && number < |slots.leases| && slots.leases[number] == Lease(agent, Open)
      modifies slots`leases
      ensures slots.Valid() && slots.View() == Close(old(slots.View()), number)
    {
      CloseKeepsBalanced(slots.limits, slots.View(), number);
      slots.leases := slots.leases[number := Lease(agent, Closing)];
    }
  }
}
