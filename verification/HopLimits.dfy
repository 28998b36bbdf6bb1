/**
 * When a coordination request records that the hop limit was exceeded
 * (mininet_ai/coordination/routing.py, `_delegate`; graph.py, `hop_limit`).
 */
module HopLimits {
  import opened Basics
  import opened Walks
  import opened Graph
  import opened Channel
  import opened Routing
  import opened Coordination

  ghost predicate RecordsHopLimit(sys: System, rid: nat) {
    rid in sys.requests && HopLimitExceeded in sys.requests[rid].issues
  }

  ghost predicate Recorded(graph: CoordinationGraph, capacity: nat, steps: seq<Step>) {
    exists rid: nat :: RecordsHopLimit(Run(graph, capacity, steps), rid)
  }

  /** Only a delivery whose check fails with the hop limit records it. */
  lemma {:induction false} RecordedBy(graph: CoordinationGraph, sys: System, step: Step, rid: nat)
    requires Enabled(graph, sys, step) && RecordsHopLimit(Next(graph, sys, step), rid)
    ensures RecordsHopLimit(sys, rid)
            || (step.Deliver? && step.request == rid && rid in sys.requests && sys.requests[rid].outbox != []
                && Check(graph, sys.requests[rid].outbox[0]) == Some(HopLimitExceeded))
  {
    if step.Deliver? && step.request == rid {
      var issue := Check(graph, sys.requests[rid].outbox[0]);
      if !RecordsHopLimit(sys, rid) && issue != Some(HopLimitExceeded) {
        DeliveryRecords(graph, sys, rid, step.id);
      }
    }
  }

  lemma {:induction false} DeliveryRecords(graph: CoordinationGraph, sys: System, rid: nat, id: string)
    requires Enabled(graph, sys, Deliver(rid, id)) && !RecordsHopLimit(sys, rid)
    requires Check(graph, sys.requests[rid].outbox[0]) != Some(HopLimitExceeded)
    ensures !RecordsHopLimit(Delivering(graph, sys, rid, id), rid)
  {
  }

  lemma {:induction false} HopLimitNeverRecorded(graph: CoordinationGraph, plan: Plan, capacity: nat, steps: seq<Step>)
    requires ValidPlan(plan) && Represents(graph, plan) && !AllowsLongWalks(plan)
    ensures !Recorded(graph, capacity, steps)
  {
    if steps != [] {
      var n := |steps| - 1;
      var sys := Run(graph, capacity, steps[..n]);
      HopLimitNeverRecorded(graph, plan, capacity, steps[..n]);
      RunIsSound(graph, plan, capacity, steps[..n]);
      if rid: nat :| RecordsHopLimit(Run(graph, capacity, steps), rid) {
        assert !RecordsHopLimit(sys, rid);
        RecordedBy(graph, sys, steps[n], rid);
        var r := sys.requests[rid];
        assert RequestSound(graph, plan, r) && r.outbox[0] in r.outbox;
        HopLimitUnreachable(graph, plan, r, r.outbox[0]);
      }
    }
  }

  /** The ends of a peer edge in turn, and the ids and messages of a request that goes back and forth along it. */
  function Peer(e: Edge, h: nat): string {
    if h % 2 == 0 then e.source else e.target
  }

  function Id(h: nat): string {
    seq(h + 1, _ => 'm')
  }

  function Bounced(e: Edge, h: nat): Message {
    if h == 0 then Root(e.source, Id(0)) else Delegated(Delegation(Bounced(e, h - 1), Peer(e, h)), Id(h))
  }

  /** One round: the waiting message is taken, and its answer delegates to the other end. */
  function Round(e: Edge, h: nat): seq<Step> {
    [Take(0, {Id(h)}), Return(0, Bounced(e, h), Some([Peer(e, h + 1)])), Deliver(0, Id(h + 1))]
  }

  function Rounds(e: Edge, h: nat): seq<Step> {
    if h == 0 then [Start(0, e.source, Id(0), None)] else Rounds(e, h - 1) + Round(e, h - 1)
  }

  /** The request waits for its message of hop count `h`, and every id accepted so far is shorter than the next. */
  ghost predicate Bouncing(sys: System, e: Edge, h: nat) {
    && sys.queue.messages == [Bounced(e, h)] && !sys.queue.closed && sys.queue.capacity > 0
    && (forall id :: id in sys.queue.accepted ==> |id| <= h + 1)
    && 0 in sys.requests && Idle(sys.requests[0]) && Bounced(e, h) in sys.requests[0].messages
    && forall id :: id in sys.requests[0].submitted ==> |id| <= h
  }

  ghost predicate Idle(r: Request) {
    r.status == Active && r.outbox == [] && r.running == {}
  }

  /** The message is running and nothing waits in the channel. */
  ghost predicate Running(sys: System, e: Edge, h: nat) {
    && sys.queue.messages == [] && !sys.queue.closed && sys.queue.capacity > 0
    && (forall id :: id in sys.queue.accepted ==> |id| <= h + 1)
    && 0 in sys.requests && sys.requests[0].status == Active && sys.requests[0].outbox == []
    && Bounced(e, h) in sys.requests[0].messages && sys.requests[0].running == {Id(h)}
    && forall id :: id in sys.requests[0].submitted ==> |id| <= h + 1
  }

  /** After its answer, the request has the next delegation to deliver and nothing waits in the channel. */
  ghost predicate Answered(sys: System, e: Edge, h: nat) {
    && sys.queue.messages == [] && !sys.queue.closed && sys.queue.capacity > 0
    && (forall id :: id in sys.queue.accepted ==> |id| <= h + 1)
    && 0 in sys.requests && sys.requests[0].status == Active && sys.requests[0].running == {}
    && sys.requests[0].outbox == [Delegation(Bounced(e, h), Peer(e, h + 1))]
    && forall id :: id in sys.requests[0].submitted ==> |id| <= h + 1
  }

  lemma {:induction false} BouncedFields(e: Edge, h: nat)
    ensures Bounced(e, h).id == Id(h) && Bounced(e, h).target == Peer(e, h) && Bounced(e, h).hop == h
  {
    if h > 0 {
      BouncedFields(e, h - 1);
    }
  }

  lemma {:induction false} ReceiveOnly(q: Queue, m: Message, ids: set<string>)
    requires q.messages == [m] && m.id in ids
    ensures Receive(q, Some(ids)) == (Some(m), q.(messages := []))
  {
    assert Wanted(q.messages[0], Some(ids));
    assert Without(q.messages, 0) == [];
  }

  lemma {:induction false} TakeIsNext(graph: CoordinationGraph, sys: System, e: Edge, h: nat)
    requires Bouncing(sys, e, h)
    ensures Running(Follow(graph, sys, Round(e, h)[0]), e, h)
  {
    var m := Bounced(e, h);
    BouncedFields(e, h);
    assert Awaits(sys.requests[0], m);
    ReceiveOnly(sys.queue, m, {Id(h)});
  }

  lemma {:induction false} AnswerIsNext(graph: CoordinationGraph, sys: System, e: Edge, h: nat)
    requires Running(sys, e, h)
    ensures Answered(Follow(graph, sys, Round(e, h)[1]), e, h)
  {
    var m := Bounced(e, h);
    BouncedFields(e, h);
    assert Delegations(m, [Peer(e, h + 1)]) == [Delegation(m, Peer(e, h + 1))];
  }

  lemma {:induction false} PeersAuthorized(graph: CoordinationGraph, plan: Plan, e: Edge)
    requires ValidPlan(plan) && Represents(graph, plan) && plan.mode == Distributed && e in plan.edges
    ensures graph.Authorize(e.source, e.target).Ok? && graph.Authorize(e.target, e.source).Ok?
  {
    assert EdgeFits(plan, e);
    assert e.Arrow() in Arrows(plan.edges);
    assert (e.Arrow().1, e.Arrow().0) in Arrows(plan.edges);
  }

  lemma {:induction false} PeersInTurn(graph: CoordinationGraph, plan: Plan, e: Edge, h: nat)
    requires ValidPlan(plan) && Represents(graph, plan) && plan.mode == Distributed && e in plan.edges
    ensures graph.Authorize(Peer(e, h), Peer(e, h + 1)).Ok?
  {
    PeersAuthorized(graph, plan, e);
  }

  /** Both ends of a peer edge may delegate to each other, up to the hop limit. */
  lemma {:induction false} PeersDelegate(graph: CoordinationGraph, plan: Plan, e: Edge, h: nat)
    requires ValidPlan(plan) && Represents(graph, plan) && plan.mode == Distributed && e in plan.edges
    ensures Check(graph, Delegation(Bounced(e, h), Peer(e, h + 1)))
            == if h + 1 > graph.HopLimit() then Some(HopLimitExceeded) else None
  {
    BouncedFields(e, h);
    PeersInTurn(graph, plan, e, h);
  }

  lemma {:induction false} DeliverySends(graph: CoordinationGraph, sys: System, e: Edge, h: nat)
    requires Answered(sys, e, h) && Check(graph, sys.requests[0].outbox[0]).None?
    ensures Bouncing(Delivering(graph, sys, 0, Id(h + 1)), e, h + 1)
  {
    var m := Delegated(Delegation(Bounced(e, h), Peer(e, h + 1)), Id(h + 1));
    assert m == Bounced(e, h + 1);
    assert |m.id| == h + 2;
    assert sys.queue.messages + [m] == [m];
  }

  lemma {:induction false} DeliveryRefuses(graph: CoordinationGraph, sys: System, e: Edge, h: nat)
    requires Answered(sys, e, h) && Check(graph, sys.requests[0].outbox[0]) == Some(HopLimitExceeded)
    ensures RecordsHopLimit(Delivering(graph, sys, 0, Id(h + 1)), 0)
  {
  }

  lemma {:induction false} DeliveryIsNext(graph: CoordinationGraph, plan: Plan, sys: System, e: Edge, h: nat)
    requires ValidPlan(plan) && Represents(graph, plan) && plan.mode == Distributed && e in plan.edges
    requires Answered(sys, e, h)
    ensures var next := Follow(graph, sys, Deliver(0, Id(h + 1)));
            if h + 1 > graph.HopLimit() then RecordsHopLimit(next, 0) else Bouncing(next, e, h + 1)
  {
    PeersDelegate(graph, plan, e, h);
    if h + 1 > graph.HopLimit() {
      DeliveryRefuses(graph, sys, e, h);
    } else {
      DeliverySends(graph, sys, e, h);
    }
  }

  /** The whole round as one function of the system, so that its effect is stated once. */
  ghost function Play(graph: CoordinationGraph, sys: System, steps: seq<Step>): System
    decreases |steps|
  {
    if steps == [] then sys else Play(graph, Follow(graph, sys, steps[0]), steps[1..])
  }

  lemma {:induction false} RunThenPlay(graph: CoordinationGraph, capacity: nat, steps: seq<Step>, more: seq<Step>)
    ensures Run(graph, capacity, steps + more) == Play(graph, Run(graph, capacity, steps), more)
    decreases |more|
  {
    if more == [] {
      assert steps + more == steps;
    } else {
      var longer := steps + [more[0]];
      assert longer[..|longer| - 1] == steps;
      assert longer + more[1..] == steps + more;
      RunThenPlay(graph, capacity, longer, more[1..]);
    }
  }

  lemma {:induction false} PlayThree(graph: CoordinationGraph, sys: System, a: Step, b: Step, c: Step)
    ensures Play(graph, sys, [a, b, c]) == Follow(graph, Follow(graph, Follow(graph, sys, a), b), c)
  {
    assert [a, b, c][1..] == [b, c] && [b, c][1..] == [c] && [c][1..] == [];
    var two := Follow(graph, Follow(graph, sys, a), b);
    assert Play(graph, two, [c]) == Follow(graph, two, c);
    assert Play(graph, sys, [a, b, c]) == Play(graph, Follow(graph, sys, a), [b, c]);
  }

  lemma {:induction false} RoundPlays(graph: CoordinationGraph, plan: Plan, sys: System, e: Edge, h: nat)
    requires ValidPlan(plan) && Represents(graph, plan) && plan.mode == Distributed && e in plan.edges
    requires Bouncing(sys, e, h)
    ensures var next := Play(graph, sys, Round(e, h));
            if h + 1 > graph.HopLimit() then RecordsHopLimit(next, 0) else Bouncing(next, e, h + 1)
  {
    var round := Round(e, h);
    TakeIsNext(graph, sys, e, h);
    AnswerIsNext(graph, Follow(graph, sys, round[0]), e, h);
    DeliveryIsNext(graph, plan, Follow(graph, Follow(graph, sys, round[0]), round[1]), e, h);
    PlayThree(graph, sys, round[0], round[1], round[2]);
  }

  lemma {:induction false} StartIsNext(graph: CoordinationGraph, plan: Plan, capacity: nat, e: Edge)
    requires ValidPlan(plan) && Represents(graph, plan) && plan.mode == Distributed && e in plan.edges
    requires capacity > 0
    ensures Bouncing(Run(graph, capacity, Rounds(e, 0)), e, 0)
  {
    assert EdgeFits(plan, e);
    assert e.source in graph.agents;
    StartBounces(graph, capacity, e);
    assert Rounds(e, 0)[..0] == [];
  }

  lemma {:induction false} StartBounces(graph: CoordinationGraph, capacity: nat, e: Edge)
    requires graph.mode == Distributed && e.source in graph.agents && capacity > 0
    ensures var empty := System(Queue([], {}, false, capacity), map[], map[]);
            Bouncing(Started(graph, empty, 0, e.source, Id(0), None), e, 0)
  {
  }

  lemma {:induction false} RoundsGoOn(graph: CoordinationGraph, plan: Plan, capacity: nat, e: Edge, h: nat)
    requires ValidPlan(plan) && Represents(graph, plan) && plan.mode == Distributed && e in plan.edges
    requires capacity > 0 && h <= graph.HopLimit()
    ensures Bouncing(Run(graph, capacity, Rounds(e, h)), e, h)
  {
    if h == 0 {
      StartIsNext(graph, plan, capacity, e);
    } else {
      RoundsGoOn(graph, plan, capacity, e, h - 1);
      RunThenPlay(graph, capacity, Rounds(e, h - 1), Round(e, h - 1));
      RoundPlays(graph, plan, Run(graph, capacity, Rounds(e, h - 1)), e, h - 1);
    }
  }

  /**
   * Some reachable request records that the hop limit was exceeded if and only if the
   * plan is distributed and has an edge: two peers that delegate to each other get there.
   */
  lemma {:induction false} HopLimitReachable(graph: CoordinationGraph, plan: Plan, capacity: nat)
    requires ValidPlan(plan) && Represents(graph, plan) && capacity > 0
    ensures (exists steps :: Recorded(graph, capacity, steps)) <==> AllowsLongWalks(plan)
  {
    if AllowsLongWalks(plan) {
      var e := plan.edges[0];
      var limit := graph.HopLimit();
      RoundsGoOn(graph, plan, capacity, e, limit);
      RunThenPlay(graph, capacity, Rounds(e, limit), Round(e, limit));
      RoundPlays(graph, plan, Run(graph, capacity, Rounds(e, limit)), e, limit);
      assert Recorded(graph, capacity, Rounds(e, limit) + Round(e, limit));
    } else {
      forall steps
        ensures !Recorded(graph, capacity, steps)
      {
        HopLimitNeverRecorded(graph, plan, capacity, steps);
      }
    }
  }
}
