/**
 * The bounded trigger queues of the continuous runtime
 * (mininet_ai/runtime/continuous.py). Each section under the runtime's condition is
 * one atomic step; the dispatcher, the workers and a stop interleave freely.
 */
module Triggers {
  import opened Basics

  datatype Overflow = RejectNew | DropOldest | Coalesce

  /** `key` is the trigger and subject a work item coalesces on; `tick` marks a bounded decision's tick. */
  datatype Item = Item(event: string, key: (string, string), tick: bool)

  /** Queues belong to execution agents; `limit` bounds all of them together. */
  datatype Config = Config(agents: seq<string>, capacity: string -> nat, overflow: string -> Overflow, limit: nat)

  datatype Match = Match(agent: string, item: Item)

  /** An item taken by a worker. The failing path of a coordinated worker takes items without marking them. */
  datatype Job = Job(agent: string, item: Item, marked: bool)

  datatype State = State(
    queues: map<string, seq<Item>>,
    queued: int,
    active: set<string>,
    running: seq<Job>,
    pending: seq<Match>,
    matched: nat, enqueued: nat, coalesced: nat, full: nat, evicted: nat, dropped: nat, popped: nat)

  // --------------------------------------------------------------------- steps

  /** The first queued item with the same coalescing key. */
  function FirstSame(queue: seq<Item>, key: (string, string)): (place: Option<nat>)
    ensures place.Some? ==> place.value < |queue| && queue[place.value].key == key
    ensures place.Some? ==> forall k :: 0 <= k < place.value ==> queue[k].key != key
    ensures place.None? ==> forall k :: 0 <= k < |queue| ==> queue[k].key != key
  {
    if queue == [] then None
    else if queue[0].key == key then Some(0)
    else
      var rest := FirstSame(queue[1..], key);
      if rest.Some? then Some(rest.value + 1) else None
  }

  /** The dispatcher counts the matches of one event before it enqueues them. */
  function Matched(s: State, matches: seq<Match>): State {
    s.(pending := s.pending + matches, matched := s.matched + |matches|)
  }

  /** Enqueues one match: a tick only behind nothing, then coalescing, then the limits. */
  function Enqueue(config: Config, s: State, agent: string, item: Item): State
    requires agent in s.queues
  {
    var queue := s.queues[agent];
    var same := FirstSame(queue, item.key);
    if item.tick && (agent in s.active || queue != []) then s.(coalesced := s.coalesced + 1)
    else if config.overflow(agent) == Coalesce && same.Some? then
      s.(queues := s.queues[agent := queue[same.value := item]], coalesced := s.coalesced + 1)
    else if |queue| < config.capacity(agent) && s.queued < config.limit then
      s.(queues := s.queues[agent := queue + [item]], queued := s.queued + 1, enqueued := s.enqueued + 1)
    else if config.overflow(agent) == DropOldest && queue != [] then
      s.(queues := s.queues[agent := queue[1..] + [item]], evicted := s.evicted + 1, enqueued := s.enqueued + 1)
    else s.(full := s.full + 1)
  }

  function EnqueueNext(config: Config, s: State): State
    requires s.pending != [] && s.pending[0].agent in s.queues
  {
    Enqueue(config, s.(pending := s.pending[1..]), s.pending[0].agent, s.pending[0].item)
  }

  /** A worker takes the oldest item; a tick marks its agent, except on the failing path. */
  function Take(s: State, agent: string, failing: bool): State
    requires agent in s.queues && s.queues[agent] != []
  {
    var item := s.queues[agent][0];
    s.(queues := s.queues[agent := s.queues[agent][1..]], queued := s.queued - 1, popped := s.popped + 1,
       running := s.running + [Job(agent, item, item.tick && !failing)],
       active := if item.tick && !failing then s.active + {agent} else s.active)
  }

  function Finish(s: State, k: nat): State
    requires k < |s.running|
  {
    var job := s.running[k];
    s.(running := s.running[..k] + s.running[k + 1..],
       active := if job.marked then s.active - {job.agent} else s.active)
  }

  /** A non-draining stop empties every queue. */
  function DropAll(s: State): State {
    s.(queues := map agent | agent in s.queues :: [], queued := 0,
       dropped := s.dropped + if s.queued >= 0 then s.queued else 0)
  }

  // ----------------------------------------------------------------- invariants

  function Total(queues: map<string, seq<Item>>, agents: seq<string>): nat {
    if agents == [] then 0
    else
      var last := agents[|agents| - 1];
      Total(queues, agents[..|agents| - 1]) + if last in queues then |queues[last]| else 0
  }

  function Ticks(queue: seq<Item>): nat {
    if queue == [] then 0 else (if queue[0].tick then 1 else 0) + Ticks(queue[1..])
  }

  /** The running ticks of an agent, those marked or those taken on the failing path. */
  function RunningTicks(running: seq<Job>, agent: string, marked: bool): nat {
    if running == [] then 0
    else
      var last := running[|running| - 1];
      RunningTicks(running[..|running| - 1], agent, marked)
      + if last.agent == agent && last.item.tick && last.marked == marked then 1 else 0
  }

  ghost predicate Bounded(config: Config, s: State) {
    && (forall agent :: agent in s.queues <==> agent in config.agents)
    && (forall agent :: agent in s.queues ==> |s.queues[agent]| <= config.capacity(agent))
    && s.queued == Total(s.queues, config.agents)
    && s.queued <= config.limit
  }

  ghost predicate Balanced(s: State) {
    && s.matched == s.enqueued + s.coalesced + s.full + |s.pending|
    && s.enqueued == s.popped + s.queued + s.evicted + s.dropped
  }

  ghost predicate OneTick(s: State, agent: string)
    requires agent in s.queues
  {
    && RunningTicks(s.running, agent, true) == (if agent in s.active then 1 else 0)
    && Ticks(s.queues[agent]) + RunningTicks(s.running, agent, true) <= 1
  }

  ghost predicate Sound(config: Config, s: State) {
    && Distinct(config.agents)
    && Bounded(config, s) && Balanced(s)
    && (forall m :: m in s.pending ==> m.agent in config.agents)
    && (forall job :: job in s.running ==> job.marked ==> job.item.tick)
    && (forall agent :: agent in s.queues ==> OneTick(s, agent))
  }

  lemma {:induction false} TotalUpdate(queues: map<string, seq<Item>>, agents: seq<string>, agent: string,
                                       queue: seq<Item>)
    requires Distinct(agents) && agent in queues
    ensures Total(queues[agent := queue], agents)
            == Total(queues, agents) + if agent in agents then |queue| - |queues[agent]| else 0
  {
    if agents != [] {
      var n := |agents| - 1;
      TotalUpdate(queues, agents[..n], agent, queue);
      assert agents == agents[..n] + [agents[n]];
      assert agents[n] !in agents[..n];
    }
  }

  lemma {:induction false} TotalEmpty(queues: map<string, seq<Item>>, agents: seq<string>)
    requires forall agent :: agent in queues ==> queues[agent] == []
    ensures Total(queues, agents) == 0
  {
    if agents != [] {
      TotalEmpty(queues, agents[..|agents| - 1]);
    }
  }

  lemma {:induction false} TicksAppend(queue: seq<Item>, item: Item)
    ensures Ticks(queue + [item]) == Ticks(queue) + if item.tick then 1 else 0
  {
    if queue != [] {
      assert (queue + [item])[1..] == queue[1..] + [item];
      TicksAppend(queue[1..], item);
    }
  }

  lemma {:induction false} TicksReplace(queue: seq<Item>, k: nat, item: Item)
    requires k < |queue|
    ensures Ticks(queue[k := item]) + (if queue[k].tick then 1 else 0) == Ticks(queue) + (if item.tick then 1 else 0)
    decreases |queue|
  {
    if k > 0 {
      assert queue[k := item][1..] == queue[1..][k - 1 := item];
      TicksReplace(queue[1..], k - 1, item);
    } else {
      assert queue[k := item][1..] == queue[1..];
    }
  }

  lemma {:induction false} RunningRemove(running: seq<Job>, k: nat, agent: string, marked: bool)
    requires k < |running|
    ensures RunningTicks(running[..k] + running[k + 1..], agent, marked)
            + (if running[k].agent == agent && running[k].item.tick && running[k].marked == marked then 1 else 0)
            == RunningTicks(running, agent, marked)
    decreases |running|
  {
    var n := |running| - 1;
    var rest := running[..k] + running[k + 1..];
    if k < n {
      RunningRemove(running[..n], k, agent, marked);
      assert running[..n][..k] + running[..n][k + 1..] == rest[..n - 1];
    } else {
      assert rest == running[..n];
    }
  }

  lemma {:induction false} EnqueueKeepsBounds(config: Config, s: State, agent: string, item: Item)
    requires Distinct(config.agents) && Bounded(config, s) && agent in s.queues
    ensures Bounded(config, Enqueue(config, s, agent, item))
  {
    var s' := Enqueue(config, s, agent, item);
    TotalUpdate(s.queues, config.agents, agent, s'.queues[agent]);
    assert s'.queues == s.queues[agent := s'.queues[agent]];
  }

  lemma {:induction false} EnqueueKeepsTicks(config: Config, s: State, agent: string, item: Item)
    requires agent in s.queues && OneTick(s, agent)
    ensures OneTick(Enqueue(config, s, agent, item), agent)
  {
    var queue := s.queues[agent];
    var same := FirstSame(queue, item.key);
    TicksAppend(queue, item);
    if same.Some? {
      TicksReplace(queue, same.value, item);
    }
    if queue != [] {
      TicksAppend(queue[1..], item);
    }
  }

  lemma {:induction false} EnqueueNextKeepsSound(config: Config, s: State)
    requires Sound(config, s) && s.pending != []
    ensures s.pending[0].agent in s.queues
    ensures Sound(config, EnqueueNext(config, s))
  {
    var m := s.pending[0];
    assert m in s.pending;
    var rest := s.(pending := s.pending[1..]);
    EnqueueKeepsBounds(config, rest, m.agent, m.item);
    EnqueueKeepsBalance(config, rest, m.agent, m.item);
    assert OneTick(s, m.agent) && OneTick(rest, m.agent);
    EnqueueKeepsTicks(config, rest, m.agent, m.item);
    OneQueueChanged(config, s, EnqueueNext(config, s), m.agent);
  }

  lemma {:induction false} OneQueueChanged(config: Config, s: State, s': State, agent: string)
    requires Sound(config, s) && Bounded(config, s') && Balanced(s')
    requires s.pending != [] && s'.pending == s.pending[1..] && s'.running == s.running && s'.active == s.active
    requires forall other :: other in s'.queues && other != agent ==> s'.queues[other] == s.queues[other]
    requires agent in s'.queues && OneTick(s', agent)
    ensures Sound(config, s')
  {
    forall other | other in s'.queues
      ensures OneTick(s', other)
    {
      assert OneTick(s, other);
    }
    assert forall x :: x in s'.pending ==> x in s.pending;
  }

  /** Each match is enqueued, coalesced or refused. */
  lemma {:induction false} EnqueueKeepsBalance(config: Config, s: State, agent: string, item: Item)
    requires agent in s.queues && s.matched == s.enqueued + s.coalesced + s.full + |s.pending| + 1
    requires s.enqueued == s.popped + s.queued + s.evicted + s.dropped
    ensures Balanced(Enqueue(config, s, agent, item))
  {
  }

  lemma {:induction false} TakeKeepsSound(config: Config, s: State, agent: string, failing: bool)
    requires Sound(config, s) && agent in s.queues && s.queues[agent] != []
    ensures Sound(config, Take(s, agent, failing))
  {
    var s' := Take(s, agent, failing);
    TotalUpdate(s.queues, config.agents, agent, s.queues[agent][1..]);
    assert s'.running[..|s'.running| - 1] == s.running;
    forall other | other in s'.queues
      ensures OneTick(s', other)
    {
      assert OneTick(s, other);
    }
  }

  lemma {:induction false} FinishKeepsSound(config: Config, s: State, k: nat)
    requires Sound(config, s) && k < |s.running|
    ensures Sound(config, Finish(s, k))
  {
    var s' := Finish(s, k);
    assert s.running[k] in s.running;
    forall other | other in s'.queues
      ensures OneTick(s', other)
    {
      assert OneTick(s, other);
      RunningRemove(s.running, k, other, true);
    }
    assert forall x :: x in s'.running ==> x in s.running;
  }

  lemma {:induction false} DropAllKeepsSound(config: Config, s: State)
    requires Sound(config, s)
    ensures Sound(config, DropAll(s))
  {
    var s' := DropAll(s);
    TotalEmpty(s'.queues, config.agents);
    forall agent | agent in s'.queues
      ensures OneTick(s', agent)
    {
      assert OneTick(s, agent);
    }
  }

  // ----------------------------------------------------------------------- runs

  datatype Action =
    | Dispatching(matches: seq<Match>)
    | Enqueueing
    | Taking(agent: string, failing: bool)
    | Finishing(job: nat)
    | Stopping

  ghost predicate Possible(config: Config, s: State, action: Action) {
    match action
    case Dispatching(matches) => s.pending == [] && forall m :: m in matches ==> m.agent in config.agents
    case Enqueueing => s.pending != [] && s.pending[0].agent in s.queues
    case Taking(agent, _) => agent in s.queues && s.queues[agent] != []
    case Finishing(k) => k < |s.running|
    case Stopping => s.pending == []
  }

  ghost function Act(config: Config, s: State, action: Action): State
    requires Possible(config, s, action)
  {
    match action
    case Dispatching(matches) => Matched(s, matches)
    case Enqueueing => EnqueueNext(config, s)
    case Taking(agent, failing) => Take(s, agent, failing)
    case Finishing(k) => Finish(s, k)
    case Stopping => DropAll(s)
  }

  function Initial(config: Config): State {
    State(map agent | agent in config.agents :: [], 0, {}, [], [], 0, 0, 0, 0, 0, 0, 0)
  }

  /** Any schedule; an action that is not possible does nothing. */
  ghost function Run(config: Config, actions: seq<Action>): State {
    if actions == [] then Initial(config)
    else
      var s := Run(config, actions[..|actions| - 1]);
      var action := actions[|actions| - 1];
      if Possible(config, s, action) then Act(config, s, action) else s
  }

  lemma {:induction false} ActKeepsSound(config: Config, s: State, action: Action)
    requires Sound(config, s) && Possible(config, s, action)
    ensures Sound(config, Act(config, s, action))
  {
    match action
    case Dispatching(matches) => DispatchKeepsSound(config, s, matches);
    case Enqueueing => EnqueueNextKeepsSound(config, s);
    case Taking(agent, failing) => TakeKeepsSound(config, s, agent, failing);
    case Finishing(k) => FinishKeepsSound(config, s, k);
    case Stopping => DropAllKeepsSound(config, s);
  }

  lemma {:induction false} DispatchKeepsSound(config: Config, s: State, matches: seq<Match>)
    requires Sound(config, s) && s.pending == [] && forall m :: m in matches ==> m.agent in config.agents
    ensures Sound(config, Matched(s, matches))
  {
    forall agent | agent in s.queues
      ensures OneTick(Matched(s, matches), agent)
    {
      assert OneTick(s, agent);
    }
  }

  /**
   * In every reachable state each queue is within its capacity, the global count is the
   * sum of the queue lengths and within its limit, the counters balance, and each agent
   * has at most one tick that is queued or marked as running.
   */
  lemma {:induction false} EveryRunIsSound(config: Config, actions: seq<Action>)
    requires Distinct(config.agents)
    ensures Sound(config, Run(config, actions))
  {
    if actions == [] {
      TotalEmpty(Initial(config).queues, config.agents);
    } else {
      EveryRunIsSound(config, actions[..|actions| - 1]);
      var s := Run(config, actions[..|actions| - 1]);
      if Possible(config, s, actions[|actions| - 1]) {
        ActKeepsSound(config, s, actions[|actions| - 1]);
      }
    }
  }

  /** All ticks of an agent that are queued or running. */
  function AllTicks(s: State, agent: string): nat
    requires agent in s.queues
  {
    Ticks(s.queues[agent]) + RunningTicks(s.running, agent, true) + RunningTicks(s.running, agent, false)
  }

  ghost predicate AtMostOneTick(s: State, agent: string) {
    agent in s.queues && AllTicks(s, agent) <= 1
  }

  /**
   * The guard under which enqueuing makes a second tick: the item is a tick, the agent
   * is not marked and its queue is empty with room in both limits, while a tick taken on
   * the failing path is still being processed.
   */
  ghost predicate MakesSecondTick(config: Config, s: State, agent: string, item: Item)
    requires agent in s.queues
  {
    && item.tick && agent !in s.active && s.queues[agent] == []
    && 0 < config.capacity(agent) && s.queued < config.limit
    && RunningTicks(s.running, agent, false) > 0
  }

  /** Section `n` of the run enqueues a match of this agent while the guard holds. */
  ghost predicate SecondTickAt(config: Config, actions: seq<Action>, agent: string, n: nat)
    requires n < |actions|
  {
    var s := Run(config, actions[..n]);
    && actions[n] == Enqueueing && s.pending != [] && s.pending[0].agent == agent && agent in s.queues
    && MakesSecondTick(config, s, agent, s.pending[0].item)
  }

  lemma {:induction false} EnqueueSecondTick(config: Config, s: State, agent: string, item: Item)
    requires AtMostOneTick(s, agent) && OneTick(s, agent)
    ensures AllTicks(Enqueue(config, s, agent, item), agent) > 1 <==> MakesSecondTick(config, s, agent, item)
  {
    var queue := s.queues[agent];
    var same := FirstSame(queue, item.key);
    TicksAppend(queue, item);
    if same.Some? {
      TicksReplace(queue, same.value, item);
    }
    if queue != [] {
      TicksAppend(queue[1..], item);
    }
  }

  /** Nothing but enqueuing for the agent adds to its ticks. */
  lemma {:induction false} OtherActionsAddNoTick(config: Config, s: State, action: Action, agent: string)
    requires Possible(config, s, action) && agent in s.queues
    requires action.Enqueueing? ==> s.pending[0].agent != agent
    ensures agent in Act(config, s, action).queues && AllTicks(Act(config, s, action), agent) <= AllTicks(s, agent)
  {
    match action
    case Dispatching(_) =>
    case Enqueueing =>
    case Taking(other, failing) =>
      assert Take(s, other, failing).running[..|s.running|] == s.running;
    case Finishing(k) =>
      RunningRemove(s.running, k, agent, true);
      RunningRemove(s.running, k, agent, false);
    case Stopping =>
  }

  lemma {:induction false} SecondTickStep(config: Config, actions: seq<Action>, agent: string)
    requires Distinct(config.agents) && actions != [] && AtMostOneTick(Run(config, actions[..|actions| - 1]), agent)
    ensures AtMostOneTick(Run(config, actions), agent) <==> !SecondTickAt(config, actions, agent, |actions| - 1)
  {
    var n := |actions| - 1;
    var s := Run(config, actions[..n]);
    EveryRunIsSound(config, actions[..n]);
    assert OneTick(s, agent);
    if Possible(config, s, actions[n]) {
      if actions[n].Enqueueing? && s.pending[0].agent == agent {
        var rest := s.(pending := s.pending[1..]);
        assert OneTick(rest, agent) && AllTicks(rest, agent) == AllTicks(s, agent);
        EnqueueSecondTick(config, rest, agent, s.pending[0].item);
      } else {
        OtherActionsAddNoTick(config, s, actions[n], agent);
      }
    }
  }

  /**
   * The exact condition: an agent has at most one tick queued or running throughout a
   * run if and only if no section of the run enqueues under the guard.
   */
  lemma {:induction false} OneTickExactly(config: Config, actions: seq<Action>, agent: string)
    requires Distinct(config.agents) && agent in config.agents
    ensures (forall n :: 0 <= n <= |actions| ==> AtMostOneTick(Run(config, actions[..n]), agent))
            <==> (forall n :: 0 <= n < |actions| ==> !SecondTickAt(config, actions, agent, n))
  {
    assert actions[..0] == [] && AtMostOneTick(Run(config, []), agent);
    forall n | 0 <= n < |actions| && AtMostOneTick(Run(config, actions[..n]), agent)
      ensures AtMostOneTick(Run(config, actions[..n + 1]), agent) <==> !SecondTickAt(config, actions, agent, n)
    {
      assert actions[..n + 1][..n] == actions[..n];
      SecondTickStep(config, actions[..n + 1], agent);
    }
    if forall n :: 0 <= n < |actions| ==> !SecondTickAt(config, actions, agent, n) {
      for n := 0 to |actions|
        invariant forall k :: 0 <= k <= n ==> AtMostOneTick(Run(config, actions[..k]), agent)
      {
        assert !SecondTickAt(config, actions, agent, n) && AtMostOneTick(Run(config, actions[..n]), agent);
        assert AtMostOneTick(Run(config, actions[..n + 1]), agent);
      }
    } else {
      var n :| 0 <= n < |actions| && SecondTickAt(config, actions, agent, n);
      assert !AtMostOneTick(Run(config, actions[..n]), agent) || !AtMostOneTick(Run(config, actions[..n + 1]), agent);
    }
  }

  /** The excess over one never exceeds the ticks taken on the failing path and still being processed. */
  lemma {:induction false} TicksBound(config: Config, actions: seq<Action>, agent: string)
    requires Distinct(config.agents) && agent in config.agents
    ensures agent in Run(config, actions).queues
    ensures var s := Run(config, actions); AllTicks(s, agent) <= 1 + RunningTicks(s.running, agent, false)
  {
    EveryRunIsSound(config, actions);
    assert OneTick(Run(config, actions), agent);
  }

  /** The claim of one tick fails on the failing path: a second tick is queued while the first is processed. */
  lemma {:induction false} FailingPathAllowsTwoTicks(agent: string, first: Item, second: Item)
    requires first.tick && second.tick
    ensures var config := Config([agent], _ => 1, _ => RejectNew, 1);
            var actions := [Dispatching([Match(agent, first)]), Enqueueing, Taking(agent, true),
                            Dispatching([Match(agent, second)]), Enqueueing];
            agent in Run(config, actions).queues && AllTicks(Run(config, actions), agent) == 2
  {
    var config := Config([agent], _ => 1, _ => RejectNew, 1);
    var d1, take := Dispatching([Match(agent, first)]), Taking(agent, true);
    var s := Run(config, [d1, Enqueueing, take]);
    TakenWhileFailing(agent, first);
    assert s.queues[agent] == [] && s.pending == [] && s.queued == 0;
    var actions := [d1, Enqueueing, take] + [Dispatching([Match(agent, second)])];
    RunExtends(config, [d1, Enqueueing, take], Dispatching([Match(agent, second)]));
    RunExtends(config, actions, Enqueueing);
    assert actions + [Enqueueing] == [d1, Enqueueing, take, Dispatching([Match(agent, second)]), Enqueueing];
    OneQueuedOneRunning(Run(config, actions + [Enqueueing]), agent, first, second);
  }

  lemma {:induction false} TakenWhileFailing(agent: string, first: Item)
    ensures var config := Config([agent], _ => 1, _ => RejectNew, 1);
            var s := Run(config, [Dispatching([Match(agent, first)]), Enqueueing, Taking(agent, true)]);
            && s.queues.Keys == {agent} && s.queues[agent] == [] && s.running == [Job(agent, first, false)]
            && s.active == {} && s.pending == [] && s.queued == 0
  {
    var config := Config([agent], _ => 1, _ => RejectNew, 1);
    var d1, take := Dispatching([Match(agent, first)]), Taking(agent, true);
    RunExtends(config, [], d1);
    assert [] + [d1] == [d1] && [d1] + [Enqueueing] == [d1, Enqueueing];
    assert [d1, Enqueueing] + [take] == [d1, Enqueueing, take];
    RunExtends(config, [d1], Enqueueing);
    assert Run(config, [d1, Enqueueing]).queues[agent] == [first];
    RunExtends(config, [d1, Enqueueing], take);
  }

  lemma {:induction false} OneQueuedOneRunning(s: State, agent: string, first: Item, second: Item)
    requires first.tick && second.tick
    requires agent in s.queues && s.queues[agent] == [second] && s.running == [Job(agent, first, false)]
    ensures AllTicks(s, agent) == 2
  {
    assert s.queues[agent][1..] == [] && s.running[..0] == [];
    assert Ticks(s.queues[agent]) == 1;
    assert RunningTicks(s.running, agent, false) == 1 && RunningTicks(s.running, agent, true) == 0;
  }

  lemma {:induction false} RunExtends(config: Config, actions: seq<Action>, action: Action)
    requires Possible(config, Run(config, actions), action)
    ensures Run(config, actions + [action]) == Act(config, Run(config, actions), action)
  {
    assert (actions + [action])[..|actions|] == actions;
  }

  // ---------------------------------------------------------------- the runtime

  class ContinuousRuntime {
    const config: Config
    var queues: map<string, seq<Item>>
    var queued: int
    var active: set<string>
    var matched: nat
    var enqueued: nat
    var coalesced: nat
    var full: nat
    var evicted: nat
    var dropped: nat
    ghost var popped: nat
    ghost var pending: seq<Match>
    ghost var running: seq<Job>

    ghost function View(): State
      reads this
    {
      State(queues, queued, active, running, pending, matched, enqueued, coalesced, full, evicted, dropped, popped)
    }

    ghost predicate Valid()
      reads this
    {
      Sound(config, View())
    }

    constructor (config: Config)
      requires Distinct(config.agents)
      ensures this.config == config && Valid() && View() == Initial(config)
    {
      this.config := config;
      queues, queued, active := map agent | agent in config.agents :: [], 0, {};
      matched, enqueued, coalesced, full, evicted, dropped := 0, 0, 0, 0, 0, 0;
      popped, pending, running := 0, [], [];
      EveryRunIsSound(config, []);
    }

    method CountMatches(matches: seq<Match>)
      requires Valid() && pending == [] && forall m :: m in matches ==> m.agent in config.agents
      modifies this
      ensures Valid() && View() == Matched(old(View()), matches)
    {
      DispatchKeepsSound(config, View(), matches);
      matched := matched + |matches|;
      pending := pending + matches;
    }

    /** Enqueues the next match of the event being dispatched. */
    method EnqueueMatch(agent: string, item: Item)
      requires Valid() && pending != [] && pending[0] == Match(agent, item)
      modifies this
      ensures Valid() && pending == old(pending)[1..] && agent in old(queues)
      ensures View() == EnqueueNext(config, old(View()))
    {
      EnqueueNextKeepsSound(config, View());
      pending := pending[1..];
      AddItem(agent, item);
    }

    method AddItem(agent: string, item: Item)
      requires agent in queues
      modifies this
      ensures View() == Enqueue(config, old(View()), agent, item)
    {
      var queue := queues[agent];
      if item.tick && (agent in active || queue != []) {
        coalesced := coalesced + 1;
        return;
      }
      if config.overflow(agent) == Coalesce {
        var place := FindSame(queue, item.key);
        if place.Some? {
          queues := queues[agent := queue[place.value := item]];
          coalesced := coalesced + 1;
          return;
        }
      }
      if |queue| >= config.capacity(agent) || queued >= config.limit {
        if config.overflow(agent) == DropOldest && queue != [] {
          queue := queue[1..];
          queued := queued - 1;
          evicted := evicted + 1;
        } else {
          full := full + 1;
          return;
        }
      }
      queues := queues[agent := queue + [item]];
      queued := queued + 1;
      enqueued := enqueued + 1;
    }

    method FindSame(queue: seq<Item>, key: (string, string)) returns (place: Option<nat>)
      ensures place == FirstSame(queue, key)
    {
      for k := 0 to |queue|
        invariant forall j :: 0 <= j < k ==> queue[j].key != key
      {
        if queue[k].key == key {
          return Some(k);
        }
      }
      return None;
    }

    /** A worker takes the oldest item of its queue. */
    method TakeItem(agent: string, failing: bool) returns (item: Item)
      requires Valid() && agent in queues && queues[agent] != []
      modifies this
      ensures Valid() && View() == Take(old(View()), agent, failing)
      ensures item == old(queues)[agent][0]
    {
      TakeKeepsSound(config, View(), agent, failing);
      item := RemoveOldest(agent, failing);
    }

    method RemoveOldest(agent: string, failing: bool) returns (item: Item)
      requires agent in queues && queues[agent] != []
      modifies this
      ensures View() == Take(old(View()), agent, failing)
      ensures item == old(queues)[agent][0]
    {
      item := queues[agent][0];
      queues := queues[agent := queues[agent][1..]];
      queued := queued - 1;
      if item.tick && !failing {
        active := active + {agent};
      }
      popped := popped + 1;
      running := running + [Job(agent, item, item.tick && !failing)];
    }

    /** A worker is done with the item of job `k`. */
    method FinishItem(agent: string, item: Item, failing: bool, ghost k: nat)
      requires Valid() && k < |running| && running[k] == Job(agent, item, item.tick && !failing)
      modifies this
      ensures Valid() && View() == Finish(old(View()), k)
    {
      FinishKeepsSound(config, View(), k);
      if item.tick && !failing {
        active := active - {agent};
      }
      running := running[..k] + running[k + 1..];
    }

    /** The dispatcher's last act in a non-draining stop. */
    method DropQueued()
      requires Valid()
      modifies this
      ensures Valid() && View() == DropAll(old(View()))
    {
      DropAllKeepsSound(config, View());
      queues, queued, dropped := DropEach(config.agents, queues, queued, dropped);
    }

    method DropEach(agents: seq<string>, queues0: map<string, seq<Item>>, queued0: int, dropped0: nat)
      returns (queues: map<string, seq<Item>>, queued: int, dropped: nat)
      requires Distinct(agents) && queued0 == Total(queues0, agents)
      requires forall agent :: agent in queues0 <==> agent in agents
      ensures queues == map agent | agent in queues0 :: []
      ensures queued == 0 && dropped == dropped0 + queued0
    {
      queues, queued, dropped := queues0, queued0, dropped0;
      for i := 0 to |agents|
        invariant queues.Keys == queues0.Keys
        invariant forall k :: 0 <= k < i ==> agents[k] in queues && queues[agents[k]] == []
        invariant queued == Total(queues, agents)
        invariant dropped + queued == dropped0 + queued0
      {
        assert agents[i] in agents;
        TotalUpdate(queues, agents, agents[i], []);
        dropped := dropped + |queues[agents[i]]|;
        queued := queued - |queues[agents[i]]|;
        queues := queues[agents[i] := []];
      }
      forall agent | agent in queues
        ensures queues[agent] == []
      {
        var k :| 0 <= k < |agents| && agents[k] == agent;
      }
      TotalEmpty(queues, agents);
    }
  }
}
