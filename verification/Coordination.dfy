/**
 * Many coordination requests on one channel: every accepted message is taken once, by
 * the request that sent it, and yields exactly one record
 * (mininet_ai/coordination/routing.py, channel.py).
 */
module Coordination {
  import opened Basics
  import opened Walks
  import opened Graph
  import opened Channel
  import opened Routing

  /** `owners` says which request had each accepted message accepted. */
  datatype System = System(queue: Queue, requests: map<nat, Request>, owners: map<string, nat>)

  /**
   * The atomic steps: a request resolves its entry agent and sends its root, with the
   * lease it was given; takes an eligible message; gets an agent's answer; delivers one
   * delegation under the id the factory returns; fails with any other exception; ends; or
   * the channel is closed.
   */
  datatype Step =
    | Start(request: nat, requested: string, id: string, lease: Option<string>)
    | Take(request: nat, eligible: set<string>)
    | Return(request: nat, message: Message, answer: Option<seq<string>>)
    | Deliver(request: nat, id: string)
    | Abort(request: nat)
    | End(request: nat)
    | Close

  ghost predicate Awaits(r: Request, m: Message) {
    m in r.messages && m.id !in r.submitted
  }

  ghost predicate AwaitsId(r: Request, id: string) {
    exists m :: Awaits(r, m) && m.id == id
  }

  ghost predicate Enabled(graph: CoordinationGraph, sys: System, step: Step) {
    match step
    case Start(rid, _, _, _) => rid !in sys.requests && (graph.mode == Centralized ==> graph.coordinator.Some?)
    case Take(rid, eligible) =>
      && rid in sys.requests && sys.requests[rid].status == Active && sys.requests[rid].outbox == []
      && forall id :: id in eligible ==> AwaitsId(sys.requests[rid], id)
    case Return(rid, m, answer) => rid in sys.requests && Allows(graph, sys.requests[rid], Returned(m, answer))
    case Deliver(rid, _) => rid in sys.requests && sys.requests[rid].status == Active && sys.requests[rid].outbox != []
    case Abort(rid) => rid in sys.requests && sys.requests[rid].status == Active
    case End(rid) => rid in sys.requests && Allows(graph, sys.requests[rid], Ended)
    case Close => true
  }

  function Root(entry: string, id: string): Message {
    Message(id, entry, 0, [entry])
  }

  /** The guard of the entry lease: it must have been reserved for the entry agent. */
  predicate WrongLease(entry: string, lease: Option<string>) {
    lease.Some? && lease.value != entry
  }

  /** A new request, whose root was accepted; a wrong lease makes it fail at this point. */
  function Opened(root: Message, lease: Option<string>): Request {
    Request([root], {}, {}, [], [], [], [], if WrongLease(root.target, lease) then Aborted else Active)
  }

  /** A request that failed before anything was accepted for it. */
  const REFUSED: Request := Request([], {}, {}, [], [], [], [], Aborted)

  function Updated(graph: CoordinationGraph, sys: System, rid: nat, e: Event, q: Queue,
                   owners: map<string, nat>): System
    requires rid in sys.requests && (e.Delivered? ==> sys.requests[rid].outbox != [])
  {
    System(q, sys.requests[rid := After(graph, sys.requests[rid], e)], owners)
  }

  function Aborting(sys: System, rid: nat): System
    requires rid in sys.requests
  {
    sys.(requests := sys.requests[rid := sys.requests[rid].(status := Aborted)])
  }

  /** An unknown agent and an empty message id end a request before its root is sent. */
  ghost function Started(graph: CoordinationGraph, sys: System, rid: nat, requested: string, id: string,
                         lease: Option<string>): System
    requires Enabled(graph, sys, Start(rid, requested, id, lease))
  {
    var entry := graph.EntryAgent(requested);
    if entry.Err? || id == "" then sys.(requests := sys.requests[rid := REFUSED])
    else
      var root := Root(entry.value, id);
      match Send(sys.queue, root)
      case Err(_) => sys.(requests := sys.requests[rid := REFUSED])
      case Ok(q) => System(q, sys.requests[rid := Opened(root, lease)], sys.owners[id := rid])
  }

  /** An empty id raises out of the whole request; a refusal by the channel is recorded as an issue. */
  ghost function Delivering(graph: CoordinationGraph, sys: System, rid: nat, id: string): System
    requires Enabled(graph, sys, Deliver(rid, id))
  {
    var d := sys.requests[rid].outbox[0];
    if Check(graph, d).Some? then Updated(graph, sys, rid, Delivered(id, None), sys.queue, sys.owners)
    else if id == "" then Aborting(sys, rid)
    else
      match Send(sys.queue, Delegated(d, id))
      case Err(e) => Updated(graph, sys, rid, Delivered(id, Some(e)), sys.queue, sys.owners)
      case Ok(q) => Updated(graph, sys, rid, Delivered(id, None), q, sys.owners[id := rid])
  }

  ghost function Next(graph: CoordinationGraph, sys: System, step: Step): System
    requires Enabled(graph, sys, step)
  {
    match step
    case Start(rid, requested, id, lease) => Started(graph, sys, rid, requested, id, lease)
    case Take(rid, eligible) =>
      var (taken, q) := Receive(sys.queue, Some(eligible));
      if taken.None? then sys else Updated(graph, sys, rid, Taken(taken.value), q, sys.owners)
    case Return(rid, m, answer) => Updated(graph, sys, rid, Returned(m, answer), sys.queue, sys.owners)
    case Deliver(rid, id) => Delivering(graph, sys, rid, id)
    case Abort(rid) => Aborting(sys, rid)
    case End(rid) => Updated(graph, sys, rid, Ended, sys.queue, sys.owners)
    case Close => sys.(queue := sys.queue.(closed := true))
  }

  // ----------------------------------------------------------------- invariants

  /** The request owns its messages, and those not yet submitted are in the channel. */
  ghost predicate Owns(q: Queue, owners: map<string, nat>, rid: nat, r: Request) {
    forall m :: m in r.messages ==> OwnsMessage(q, owners, rid, r, m)
  }

  ghost predicate OwnsMessage(q: Queue, owners: map<string, nat>, rid: nat, r: Request, m: Message) {
    m.id in owners && owners[m.id] == rid && (m.id !in r.submitted ==> m in q.messages)
  }

  ghost predicate QueueOwned(sys: System) {
    forall m :: m in sys.queue.messages ==> OwnedMessage(sys, m)
  }

  ghost predicate OwnedMessage(sys: System, m: Message) {
    m.id in sys.owners && sys.owners[m.id] in sys.requests && Awaits(sys.requests[sys.owners[m.id]], m)
  }

  ghost predicate SystemSound(graph: CoordinationGraph, plan: Plan, sys: System) {
    && Channel.Sound(sys.queue) && sys.queue.accepted == sys.owners.Keys
    && QueueOwned(sys)
    && forall rid :: rid in sys.requests ==>
         RequestSound(graph, plan, sys.requests[rid]) && Owns(sys.queue, sys.owners, rid, sys.requests[rid])
  }

  /** What a step of one request must establish for the whole system to stay sound. */
  lemma {:induction false} UpdateKeepsSystem(graph: CoordinationGraph, plan: Plan, sys: System, rid: nat, r: Request,
                                             q: Queue, owners: map<string, nat>)
    requires SystemSound(graph, plan, sys)
    requires Channel.Sound(q) && q.accepted == owners.Keys
    requires forall id :: id in sys.owners ==> id in owners && owners[id] == sys.owners[id]
    requires RequestSound(graph, plan, r) && Owns(q, owners, rid, r)
    requires forall m :: m in q.messages ==>
               || (m in sys.queue.messages && sys.owners[m.id] != rid)
               || (m.id in owners && owners[m.id] == rid && Awaits(r, m))
    requires forall m :: m in sys.queue.messages && m.id in sys.owners && sys.owners[m.id] != rid ==> m in q.messages
    ensures SystemSound(graph, plan, System(q, sys.requests[rid := r], owners))
  {
    var sys' := System(q, sys.requests[rid := r], owners);
    forall m | m in q.messages
      ensures OwnedMessage(sys', m)
    {
      assert m in sys.queue.messages ==> OwnedMessage(sys, m);
    }
    forall other | other in sys.requests && other != rid
      ensures Owns(q, owners, other, sys.requests[other])
    {
      forall m | m in sys.requests[other].messages
        ensures OwnsMessage(q, owners, other, sys.requests[other], m)
      {
        assert OwnsMessage(sys.queue, sys.owners, other, sys.requests[other], m);
      }
    }
  }

  /** What waits in the channel belongs to the request recorded as its owner. */
  lemma {:induction false} WaitingBelongs(graph: CoordinationGraph, plan: Plan, sys: System, rid: nat, m: Message)
    requires SystemSound(graph, plan, sys) && rid in sys.requests && m in sys.queue.messages
    ensures sys.owners[m.id] == rid <==> Awaits(sys.requests[rid], m)
  {
    assert OwnedMessage(sys, m);
    if Awaits(sys.requests[rid], m) {
      assert OwnsMessage(sys.queue, sys.owners, rid, sys.requests[rid], m);
    }
  }

  /** A take with some eligible message never comes back empty, and only finds the request's own message. */
  lemma {:induction false} TakeFindsOwn(graph: CoordinationGraph, plan: Plan, sys: System, rid: nat,
                                        eligible: set<string>)
    requires SystemSound(graph, plan, sys) && Enabled(graph, sys, Take(rid, eligible))
    ensures eligible != {} ==> Receive(sys.queue, Some(eligible)).0.Some?
    ensures Receive(sys.queue, Some(eligible)).0.Some? ==>
              var m := Receive(sys.queue, Some(eligible)).0.value;
              m.id in eligible && sys.owners[m.id] == rid && Allows(graph, sys.requests[rid], Taken(m))
  {
    var r := sys.requests[rid];
    var (taken, q) := Receive(sys.queue, Some(eligible));
    ReceiveRemoves(sys.queue, Some(eligible));
    if id :| id in eligible {
      var m :| Awaits(r, m) && m.id == id;
      assert OwnsMessage(sys.queue, sys.owners, rid, r, m);
      assert Wanted(m, Some(eligible));
    }
    if taken.Some? {
      var m := taken.value;
      var mine :| Awaits(r, mine) && mine.id == m.id;
      assert OwnsMessage(sys.queue, sys.owners, rid, r, mine);
      OneMessagePerId(sys.queue.messages, m, mine);
    }
  }

  lemma {:induction false} TakeKeepsSystem(graph: CoordinationGraph, plan: Plan, sys: System, rid: nat,
                                           eligible: set<string>)
    requires SystemSound(graph, plan, sys) && Enabled(graph, sys, Take(rid, eligible))
    ensures SystemSound(graph, plan, Next(graph, sys, Take(rid, eligible)))
  {
    var r := sys.requests[rid];
    var (taken, q) := Receive(sys.queue, Some(eligible));
    ReceiveRemoves(sys.queue, Some(eligible));
    TakeFindsOwn(graph, plan, sys, rid, eligible);
    if taken.Some? {
      var m := taken.value;
      TakenKeepsSound(graph, plan, r, m);
      var r' := After(graph, r, Taken(m));
      forall x | x in r'.messages
        ensures OwnsMessage(q, sys.owners, rid, r', x)
      {
        assert OwnsMessage(sys.queue, sys.owners, rid, r, x);
      }
      forall x | x in q.messages
        ensures sys.owners[x.id] == rid ==> Awaits(r', x)
      {
        WaitingBelongs(graph, plan, sys, rid, x);
        DifferentIds(sys.queue.messages, x, m);
      }
      UpdateKeepsSystem(graph, plan, sys, rid, r', q, sys.owners);
    }
  }

  lemma {:induction false} DifferentIds(messages: seq<Message>, x: Message, m: Message)
    requires DistinctMessages(messages) && x in messages && m in messages && x != m
    ensures x.id != m.id
  {
  }

  /** A step that neither sends nor receives and submits nothing new. */
  lemma {:induction false} QuietKeepsSystem(graph: CoordinationGraph, plan: Plan, sys: System, rid: nat, r': Request)
    requires SystemSound(graph, plan, sys) && rid in sys.requests && RequestSound(graph, plan, r')
    requires r'.messages == sys.requests[rid].messages && r'.submitted == sys.requests[rid].submitted
    ensures SystemSound(graph, plan, sys.(requests := sys.requests[rid := r']))
  {
    var r := sys.requests[rid];
    forall x | x in r'.messages
      ensures OwnsMessage(sys.queue, sys.owners, rid, r', x)
    {
      assert OwnsMessage(sys.queue, sys.owners, rid, r, x);
    }
    forall x | x in sys.queue.messages
      ensures x.id in sys.owners && (sys.owners[x.id] == rid ==> Awaits(r', x))
    {
      assert OwnedMessage(sys, x);
      WaitingBelongs(graph, plan, sys, rid, x);
    }
    UpdateKeepsSystem(graph, plan, sys, rid, r', sys.queue, sys.owners);
  }

  /** A request that had one more message accepted, and is otherwise as before for the channel. */
  lemma {:induction false} SentKeepsSystem(graph: CoordinationGraph, plan: Plan, sys: System, rid: nat,
                                           before: seq<Message>, r': Request, m: Message)
    requires SystemSound(graph, plan, sys) && Send(sys.queue, m).Ok?
    requires if rid in sys.requests then before == sys.requests[rid].messages
             && r'.submitted == sys.requests[rid].submitted
             else before == [] && r'.submitted == {}
    requires RequestSound(graph, plan, r') && r'.messages == before + [m]
    requires m.id !in r'.submitted
    ensures SystemSound(graph, plan, System(Send(sys.queue, m).value, sys.requests[rid := r'], sys.owners[m.id := rid]))
  {
    SendKeepsSound(sys.queue, m);
    var q, owners := Send(sys.queue, m).value, sys.owners[m.id := rid];
    forall x | x in r'.messages
      ensures OwnsMessage(q, owners, rid, r', x)
    {
      if x in before {
        assert OwnsMessage(sys.queue, sys.owners, rid, sys.requests[rid], x);
      }
    }
    forall x | x in sys.queue.messages
      ensures x.id in sys.owners && (sys.owners[x.id] == rid ==> Awaits(r', x))
    {
      assert OwnedMessage(sys, x);
      if rid in sys.requests {
        WaitingBelongs(graph, plan, sys, rid, x);
      }
    }
    UpdateKeepsSystem(graph, plan, sys, rid, r', q, owners);
  }

  lemma {:induction false} StartKeepsSystem(graph: CoordinationGraph, plan: Plan, sys: System, step: Step)
    requires ValidPlan(plan) && Represents(graph, plan)
    requires SystemSound(graph, plan, sys) && step.Start? && Enabled(graph, sys, step)
    ensures SystemSound(graph, plan, Next(graph, sys, step))
  {
    var rid, entry := step.request, graph.EntryAgent(step.requested);
    if entry.Ok? && step.id != "" && Send(sys.queue, Root(entry.value, step.id)).Ok? {
      var root := Root(entry.value, step.id);
      assert root.target in Elements(plan.agents);
      assert WithinHops(graph, plan, root);
      SentKeepsSystem(graph, plan, sys, rid, [], Opened(root, step.lease), root);
    } else {
      forall x | x in sys.queue.messages
        ensures x.id in sys.owners && sys.owners[x.id] != rid
      {
        assert OwnedMessage(sys, x);
      }
      UpdateKeepsSystem(graph, plan, sys, rid, REFUSED, sys.queue, sys.owners);
    }
  }

  /** Failing leaves the request's messages where they are. */
  lemma {:induction false} AbortKeepsSystem(graph: CoordinationGraph, plan: Plan, sys: System, rid: nat)
    requires SystemSound(graph, plan, sys) && rid in sys.requests
    ensures SystemSound(graph, plan, Aborting(sys, rid))
  {
    QuietKeepsSystem(graph, plan, sys, rid, sys.requests[rid].(status := Aborted));
  }

  lemma {:induction false} DeliverKeepsSystem(graph: CoordinationGraph, plan: Plan, sys: System, rid: nat, id: string)
    requires ValidPlan(plan) && Represents(graph, plan)
    requires SystemSound(graph, plan, sys) && Enabled(graph, sys, Deliver(rid, id))
    ensures SystemSound(graph, plan, Next(graph, sys, Deliver(rid, id)))
  {
    var r := sys.requests[rid];
    var d := r.outbox[0];
    var m := Delegated(d, id);
    if Check(graph, d).Some? {
      DeliveredKeepsSound(graph, plan, r, Delivered(id, None));
      QuietKeepsSystem(graph, plan, sys, rid, After(graph, r, Delivered(id, None)));
    } else if id == "" {
      AbortKeepsSystem(graph, plan, sys, rid);
    } else if Send(sys.queue, m).Err? {
      var e := Delivered(id, Some(Send(sys.queue, m).error));
      DeliveredKeepsSound(graph, plan, r, e);
      QuietKeepsSystem(graph, plan, sys, rid, After(graph, r, e));
    } else {
      FreshForRequest(graph, plan, sys, rid, id);
      DeliveredKeepsSound(graph, plan, r, Delivered(id, None));
      SentKeepsSystem(graph, plan, sys, rid, r.messages, After(graph, r, Delivered(id, None)), m);
    }
  }

  lemma {:induction false} FreshForRequest(graph: CoordinationGraph, plan: Plan, sys: System, rid: nat, id: string)
    requires SystemSound(graph, plan, sys) && rid in sys.requests && id !in sys.queue.accepted
    ensures id !in MessageIds(sys.requests[rid].messages)
  {
    forall m | m in sys.requests[rid].messages
      ensures m.id != id
    {
      assert OwnsMessage(sys.queue, sys.owners, rid, sys.requests[rid], m);
    }
  }

  lemma {:induction false} NextKeepsSystem(graph: CoordinationGraph, plan: Plan, sys: System, step: Step)
    requires ValidPlan(plan) && Represents(graph, plan)
    requires SystemSound(graph, plan, sys) && Enabled(graph, sys, step)
    ensures SystemSound(graph, plan, Next(graph, sys, step))
  {
    match step
    case Start(_, _, _, _) => StartKeepsSystem(graph, plan, sys, step);
    case Take(rid, eligible) => TakeKeepsSystem(graph, plan, sys, rid, eligible);
    case Return(rid, m, answer) =>
      EventKeepsSound(graph, plan, sys.requests[rid], Returned(m, answer));
      QuietKeepsSystem(graph, plan, sys, rid, After(graph, sys.requests[rid], Returned(m, answer)));
    case Deliver(rid, id) => DeliverKeepsSystem(graph, plan, sys, rid, id);
    case Abort(rid) => AbortKeepsSystem(graph, plan, sys, rid);
    case End(rid) =>
      EventKeepsSound(graph, plan, sys.requests[rid], Ended);
      QuietKeepsSystem(graph, plan, sys, rid, After(graph, sys.requests[rid], Ended));
    case Close => ClosingKeepsSystem(graph, plan, sys);
  }

  lemma {:induction false} ClosingKeepsSystem(graph: CoordinationGraph, plan: Plan, sys: System)
    requires SystemSound(graph, plan, sys)
    ensures SystemSound(graph, plan, sys.(queue := sys.queue.(closed := true)))
  {
    var sys' := sys.(queue := sys.queue.(closed := true));
    forall m | m in sys'.queue.messages
      ensures OwnedMessage(sys', m)
    {
      assert OwnedMessage(sys, m);
    }
    forall rid | rid in sys.requests
      ensures Owns(sys'.queue, sys.owners, rid, sys.requests[rid])
    {
      forall m | m in sys.requests[rid].messages
        ensures OwnsMessage(sys'.queue, sys.owners, rid, sys.requests[rid], m)
      {
        assert OwnsMessage(sys.queue, sys.owners, rid, sys.requests[rid], m);
      }
    }
  }

  /** A step that is not enabled does nothing. */
  ghost function Follow(graph: CoordinationGraph, sys: System, step: Step): System {
    if Enabled(graph, sys, step) then Next(graph, sys, step) else sys
  }

  /** Any schedule of steps from an empty channel. */
  ghost function Run(graph: CoordinationGraph, capacity: nat, steps: seq<Step>): System {
    if steps == [] then System(Queue([], {}, false, capacity), map[], map[])
    else Follow(graph, Run(graph, capacity, steps[..|steps| - 1]), steps[|steps| - 1])
  }

  lemma {:induction false} RunIsSound(graph: CoordinationGraph, plan: Plan, capacity: nat, steps: seq<Step>)
    requires ValidPlan(plan) && Represents(graph, plan)
    ensures SystemSound(graph, plan, Run(graph, capacity, steps))
  {
    if steps != [] {
      RunIsSound(graph, plan, capacity, steps[..|steps| - 1]);
      var sys := Run(graph, capacity, steps[..|steps| - 1]);
      if Enabled(graph, sys, steps[|steps| - 1]) {
        NextKeepsSystem(graph, plan, sys, steps[|steps| - 1]);
      }
    }
  }

  // ------------------------------------------------------------------- theorems

  /** In every reachable state a finished request has exactly one record for each message it had accepted. */
  lemma {:induction false} EachMessageRecordedOnce(graph: CoordinationGraph, plan: Plan, capacity: nat,
                                                   steps: seq<Step>, rid: nat)
    requires ValidPlan(plan) && Represents(graph, plan)
    requires rid in Run(graph, capacity, steps).requests && Run(graph, capacity, steps).requests[rid].status == Finished
    ensures var r := Run(graph, capacity, steps).requests[rid];
            && Distinct(r.answered + r.failed) && DistinctMessages(r.messages)
            && forall id :: id in r.answered + r.failed <==> id in MessageIds(r.messages)
  {
    RunIsSound(graph, plan, capacity, steps);
    var r := Run(graph, capacity, steps).requests[rid];
    assert RequestSound(graph, plan, r);
    forall id
      ensures id in r.answered + r.failed <==> id in MessageIds(r.messages)
    {
      assert id in r.answered + r.failed <==> id in Elements(r.answered + r.failed);
    }
  }

  /** No message is accepted for two requests. */
  lemma {:induction false} MessagesHaveOneOwner(graph: CoordinationGraph, plan: Plan, capacity: nat, steps: seq<Step>,
                                                a: nat, b: nat)
    requires ValidPlan(plan) && Represents(graph, plan) && a != b
    requires a in Run(graph, capacity, steps).requests && b in Run(graph, capacity, steps).requests
    ensures MessageIds(Run(graph, capacity, steps).requests[a].messages)
              !! MessageIds(Run(graph, capacity, steps).requests[b].messages)
  {
    RunIsSound(graph, plan, capacity, steps);
    var sys := Run(graph, capacity, steps);
    forall m, n | m in sys.requests[a].messages && n in sys.requests[b].messages
      ensures m.id != n.id
    {
      assert OwnsMessage(sys.queue, sys.owners, a, sys.requests[a], m);
      assert OwnsMessage(sys.queue, sys.owners, b, sys.requests[b], n);
    }
  }

  // ---------------------------------------------------------- what is left behind

  /** The ways a request can fail after messages were accepted for it. */
  ghost predicate Fails(graph: CoordinationGraph, sys: System, step: Step, rid: nat) {
    && Enabled(graph, sys, step)
    && match step
       case Start(r, requested, id, lease) =>
         var entry := graph.EntryAgent(requested);
         r == rid && entry.Ok? && id != "" && Send(sys.queue, Root(entry.value, id)).Ok?
             && WrongLease(entry.value, lease)
       case Deliver(r, id) => r == rid && id == "" && Check(graph, sys.requests[rid].outbox[0]).None?
       case Abort(r) => r == rid
       case _ => false
  }

  /** Step `i` of the run made the request fail while it had this message accepted and not submitted. */
  ghost predicate StrandedAt(graph: CoordinationGraph, capacity: nat, steps: seq<Step>, i: nat, rid: nat, m: Message)
    requires i < |steps|
  {
    var sys := Run(graph, capacity, steps[..i]);
    && Fails(graph, sys, steps[i], rid)
    && rid in Next(graph, sys, steps[i]).requests && Awaits(Next(graph, sys, steps[i]).requests[rid], m)
  }

  ghost predicate StrandedIn(graph: CoordinationGraph, capacity: nat, steps: seq<Step>, m: Message) {
    exists i, rid :: 0 <= i < |steps| && StrandedAt(graph, capacity, steps, i, rid, m)
  }

  /** A failed request never changes again. */
  lemma {:induction false} FailedStays(graph: CoordinationGraph, sys: System, step: Step, rid: nat)
    requires Enabled(graph, sys, step) && rid in sys.requests && sys.requests[rid].status == Aborted
    ensures rid in Next(graph, sys, step).requests && Next(graph, sys, step).requests[rid] == sys.requests[rid]
  {
  }

  lemma {:induction false} FailedStaysInRun(graph: CoordinationGraph, capacity: nat, steps: seq<Step>, more: seq<Step>,
                                            rid: nat)
    requires var sys := Run(graph, capacity, steps); rid in sys.requests && sys.requests[rid].status == Aborted
    ensures var sys, later := Run(graph, capacity, steps), Run(graph, capacity, steps + more);
            rid in later.requests && later.requests[rid] == sys.requests[rid]
  {
    if more == [] {
      assert steps + more == steps;
    } else {
      var n := |more| - 1;
      FailedStaysInRun(graph, capacity, steps, more[..n], rid);
      assert (steps + more)[..|steps + more| - 1] == steps + more[..n];
      var sys := Run(graph, capacity, steps + more[..n]);
      if Enabled(graph, sys, more[n]) {
        FailedStays(graph, sys, more[n], rid);
      }
    }
  }

  /** A request that fails in a step was made to fail by one of the listed ways, or has no message. */
  lemma {:induction false} FailsBy(graph: CoordinationGraph, sys: System, step: Step, rid: nat, m: Message)
    requires Enabled(graph, sys, step) && rid in Next(graph, sys, step).requests
    requires Next(graph, sys, step).requests[rid].status == Aborted && Awaits(Next(graph, sys, step).requests[rid], m)
    requires !(rid in sys.requests && sys.requests[rid].status == Aborted)
    ensures Fails(graph, sys, step, rid)
  {
  }

  /** Every message that a failed request had accepted and not submitted was stranded by some step of the run. */
  lemma {:induction false} FailedWasStranded(graph: CoordinationGraph, capacity: nat, steps: seq<Step>, rid: nat,
                                             m: Message)
    requires var sys := Run(graph, capacity, steps);
             rid in sys.requests && sys.requests[rid].status == Aborted && Awaits(sys.requests[rid], m)
    ensures StrandedIn(graph, capacity, steps, m)
  {
    if steps != [] {
      var n := |steps| - 1;
      var sys := Run(graph, capacity, steps[..n]);
      if rid in sys.requests && sys.requests[rid].status == Aborted {
        if Enabled(graph, sys, steps[n]) {
          FailedStays(graph, sys, steps[n], rid);
        }
        FailedWasStranded(graph, capacity, steps[..n], rid, m);
        StrandedEarlier(graph, capacity, steps, m);
      } else {
        FailsBy(graph, sys, steps[n], rid, m);
        assert StrandedAt(graph, capacity, steps, n, rid, m);
      }
    }
  }

  lemma {:induction false} StrandedEarlier(graph: CoordinationGraph, capacity: nat, steps: seq<Step>, m: Message)
    requires steps != [] && StrandedIn(graph, capacity, steps[..|steps| - 1], m)
    ensures StrandedIn(graph, capacity, steps, m)
  {
    var n := |steps| - 1;
    var i, rid :| 0 <= i < n && StrandedAt(graph, capacity, steps[..n], i, rid, m);
    assert steps[..n][..i] == steps[..i] && steps[..n][i] == steps[i];
    assert StrandedAt(graph, capacity, steps, i, rid, m);
  }

  /** A message stranded by some step is in the channel in every later state, whatever happens. */
  lemma {:induction false} StrandedStays(graph: CoordinationGraph, plan: Plan, capacity: nat, steps: seq<Step>, i: nat,
                                         rid: nat, m: Message)
    requires ValidPlan(plan) && Represents(graph, plan) && i < |steps| && StrandedAt(graph, capacity, steps, i, rid, m)
    ensures m in Run(graph, capacity, steps).queue.messages
    ensures rid in Run(graph, capacity, steps).requests && Run(graph, capacity, steps).requests[rid].status == Aborted
  {
    assert steps[..i + 1][..i] == steps[..i];
    assert Run(graph, capacity, steps[..i + 1]) == Next(graph, Run(graph, capacity, steps[..i]), steps[i]);
    assert Run(graph, capacity, steps[..i + 1]).requests[rid].status == Aborted;
    FailedStaysInRun(graph, capacity, steps[..i + 1], steps[i + 1..], rid);
    assert steps[..i + 1] + steps[i + 1..] == steps;
    RunIsSound(graph, plan, capacity, steps);
    var sys := Run(graph, capacity, steps);
    assert OwnsMessage(sys.queue, sys.owners, rid, sys.requests[rid], m);
  }

  /**
   * Once no request is active, a message is left in the channel if and only if some step
   * of the run made its request fail while the message was accepted and not submitted:
   * a start with a lease for another agent, a delivery whose message id is empty, or
   * another exception in the loop.
   */
  lemma {:induction false} LeftBehindExactly(graph: CoordinationGraph, plan: Plan, capacity: nat, steps: seq<Step>,
                                             m: Message)
    requires ValidPlan(plan) && Represents(graph, plan)
    requires forall rid :: rid in Run(graph, capacity, steps).requests ==>
             Run(graph, capacity, steps).requests[rid].status != Active
    ensures m in Run(graph, capacity, steps).queue.messages <==> StrandedIn(graph, capacity, steps, m)
  {
    RunIsSound(graph, plan, capacity, steps);
    var sys := Run(graph, capacity, steps);
    if m in sys.queue.messages {
      assert OwnedMessage(sys, m);
      var rid := sys.owners[m.id];
      assert RequestSound(graph, plan, sys.requests[rid]);
      FailedWasStranded(graph, capacity, steps, rid, m);
    }
    if StrandedIn(graph, capacity, steps, m) {
      var i, rid :| 0 <= i < |steps| && StrandedAt(graph, capacity, steps, i, rid, m);
      StrandedStays(graph, plan, capacity, steps, i, rid, m);
    }
  }

  /**
   * In any run, a request given a lease for another agent than its entry agent strands
   * its root: once accepted, it occupies the channel whatever happens before or after.
   */
  lemma {:induction false} WrongLeaseStrandsRoot(graph: CoordinationGraph, plan: Plan, capacity: nat,
                                                 before: seq<Step>, start: Step,
                                                 more: seq<Step>)
    requires ValidPlan(plan) && Represents(graph, plan) && start.Start? && start.id != ""
    requires Enabled(graph, Run(graph, capacity, before), start)
    requires var entry := graph.EntryAgent(start.requested);
             entry.Ok? && WrongLease(entry.value, start.lease)
             && Send(Run(graph, capacity, before).queue, Root(entry.value, start.id)).Ok?
    ensures var entry := graph.EntryAgent(start.requested).value;
            Root(entry, start.id) in Run(graph, capacity, before + [start] + more).queue.messages
  {
    var steps := before + [start] + more;
    var n, entry := |before|, graph.EntryAgent(start.requested).value;
    assert steps[..n] == before && steps[n] == start;
    assert StrandedAt(graph, capacity, steps, n, start.request, Root(entry, start.id));
    StrandedStays(graph, plan, capacity, steps, n, start.request, Root(entry, start.id));
  }

  /**
   * In any run, an empty message id for an authorized delegation fails the request, and
   * every message it had accepted and not submitted occupies the channel from then on.
   */
  lemma {:induction false} EmptyIdStrandsMessages(graph: CoordinationGraph, plan: Plan, capacity: nat,
                                                  before: seq<Step>, rid: nat,
                                                  more: seq<Step>, m: Message)
    requires ValidPlan(plan) && Represents(graph, plan)
    requires Enabled(graph, Run(graph, capacity, before), Deliver(rid, ""))
    requires var r := Run(graph, capacity, before).requests[rid]; Check(graph, r.outbox[0]).None? && Awaits(r, m)
    ensures m in Run(graph, capacity, before + [Deliver(rid, "")] + more).queue.messages
  {
    var steps := before + [Deliver(rid, "")] + more;
    var n := |before|;
    assert steps[..n] == before && steps[n] == Deliver(rid, "");
    assert StrandedAt(graph, capacity, steps, n, rid, m);
    StrandedStays(graph, plan, capacity, steps, n, rid, m);
  }
}
