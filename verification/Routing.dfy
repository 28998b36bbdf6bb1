/**
 * The coordination loop: requests share one channel, deliver graph-authorized
 * delegations and collect one record for each accepted message
 * (mininet_ai/coordination/routing.py, `_coordinate` and `_delegate`).
 */
module Routing {
  import opened Basics
  import opened Walks
  import opened Graph
  import opened Channel
  import opened Measures

  /** A delegation of the response being processed. */
  datatype Delegation = Delegation(parent: Message, target: string)

  datatype Issue = NotAuthorized(error: GraphError) | HopLimitExceeded | NotSent(refusal: Refusal)

  datatype Status = Active | Finished | Aborted

  /**
   * One request: the messages it had accepted, those submitted to an agent, those
   * still running, the delegations left to deliver, and what was recorded.
   */
  datatype Request = Request(
    messages: seq<Message>,
    submitted: set<string>,
    running: set<string>,
    outbox: seq<Delegation>,
    answered: seq<string>,
    failed: seq<string>,
    issues: seq<Issue>,
    status: Status)

  /** One step of a request, with what the agents and the channel answered. */
  datatype Event =
    | Taken(message: Message)
    | Returned(message: Message, answer: Option<seq<string>>)
    | Delivered(id: string, refusal: Option<Refusal>)
    | Ended

  // ------------------------------------------------------------------- one step

  /** The check of one delegation before it is sent. */
  function Check(graph: CoordinationGraph, d: Delegation): Option<Issue> {
    var authorized := graph.Authorize(d.parent.target, d.target);
    if authorized.Err? then Some(NotAuthorized(authorized.error))
    else if d.parent.hop + 1 > graph.HopLimit() then Some(HopLimitExceeded)
    else None
  }

  function Delegated(d: Delegation, id: string): Message {
    Message(id, d.target, d.parent.hop + 1, d.parent.trail + [d.target])
  }

  predicate Allows(graph: CoordinationGraph, r: Request, e: Event) {
    && r.status == Active
    && match e
       case Taken(m) => r.outbox == [] && m in r.messages && m.id !in r.submitted
       case Returned(m, _) => r.outbox == [] && m in r.messages && m.id in r.running
       case Delivered(id, refusal) =>
         r.outbox != [] && (Check(graph, r.outbox[0]).None? && refusal.None? ==> id !in MessageIds(r.messages))
       case Ended => r.outbox == [] && r.running == {} && forall m :: m in r.messages ==> m.id in r.submitted
  }

  function Delegations(m: Message, targets: seq<string>): seq<Delegation> {
    seq(|targets|, i requires 0 <= i < |targets| => Delegation(m, targets[i]))
  }

  function After(graph: CoordinationGraph, r: Request, e: Event): Request
    requires e.Delivered? ==> r.outbox != []
  {
    match e
    case Taken(m) => r.(submitted := r.submitted + {m.id}, running := r.running + {m.id})
    case Returned(m, answer) =>
      if answer.None? then r.(running := r.running - {m.id}, failed := r.failed + [m.id])
      else r.(running := r.running - {m.id}, answered := r.answered + [m.id], outbox := Delegations(m, answer.value))
    case Delivered(id, refusal) =>
      var d := r.outbox[0];
      var issue := Check(graph, d);
      var rest := r.(outbox := r.outbox[1..]);
      if issue.Some? then rest.(issues := r.issues + [issue.value])
      else if refusal.Some? then rest.(issues := r.issues + [NotSent(refusal.value)])
      else rest.(messages := r.messages + [Delegated(d, id)])
    case Ended => r.(status := Finished)
  }

  // ----------------------------------------------------------------- invariants

  /** A message's trail is a walk of authorized edges that ends at its target. */
  ghost predicate Routed(plan: Plan, m: Message) {
    && |m.trail| == m.hop + 1
    && m.trail[m.hop] == m.target
    && IsWalk(Arrows(plan.edges), m.trail)
    && m.trail[0] in plan.agents
  }

  ghost predicate WithinHops(graph: CoordinationGraph, plan: Plan, m: Message) {
    Routed(plan, m) && m.hop <= graph.HopLimit()
  }

  /** Every submitted message is either running or recorded, exactly once. */
  ghost predicate Accounted(r: Request) {
    && r.running <= r.submitted <= MessageIds(r.messages)
    && Distinct(r.answered + r.failed)
    && Elements(r.answered + r.failed) == r.submitted - r.running
  }

  ghost predicate RequestSound(graph: CoordinationGraph, plan: Plan, r: Request) {
    && DistinctMessages(r.messages)
    && (forall m :: m in r.messages ==> WithinHops(graph, plan, m))
    && (forall d :: d in r.outbox ==> d.parent in r.messages)
    && Accounted(r)
    && (r.status == Finished ==> r.outbox == [] && r.running == {} && forall m :: m in r.messages ==>
         m.id in r.submitted)
  }

  lemma {:induction false} DelegatedWithinHops(graph: CoordinationGraph, plan: Plan, d: Delegation, id: string)
    requires ValidPlan(plan) && Represents(graph, plan) && WithinHops(graph, plan, d.parent)
    requires Check(graph, d).None?
    ensures WithinHops(graph, plan, Delegated(d, id))
  {
    AuthorizeExact(graph, plan, d.parent.target, d.target);
    WalkOneMore(Arrows(plan.edges), d.parent.trail, d.target);
  }

  lemma {:induction false} WalkOneMore(arrows: set<Arrow>, walk: seq<string>, next: string)
    requires IsWalk(arrows, walk) && (walk[|walk| - 1], next) in arrows
    ensures IsWalk(arrows, walk + [next])
  {
    var longer := walk + [next];
    forall i | 0 <= i < |longer| - 1
      ensures (longer[i], longer[i + 1]) in arrows
    {
      if i < |walk| - 1 {
        assert (walk[i], walk[i + 1]) in arrows;
      }
    }
  }

  lemma {:induction false} MessageHasId(messages: seq<Message>, m: Message)
    requires m in messages
    ensures m.id in MessageIds(messages)
  {
  }

  lemma {:induction false} RecordKeepsAccounts(r: Request, id: string, answered: seq<string>, failed: seq<string>)
    requires Accounted(r) && id in r.running
    requires (answered == r.answered + [id] && failed == r.failed)
             || (answered == r.answered && failed == r.failed + [id])
    ensures Distinct(answered + failed)
    ensures Elements(answered + failed) == r.submitted - (r.running - {id})
  {
    var before, after := r.answered + r.failed, answered + failed;
    assert id !in Elements(before);
    if failed == r.failed + [id] {
      assert after == before + [id];
      assert before + [id] + [] == after;
      assert before + [] == before;
      InsertedDistinct(before, [], id);
    } else {
      InsertedDistinct(r.answered, r.failed, id);
    }
    forall x
      ensures x in after <==> x in before || x == id
    {
      assert x in before <==> x in r.answered || x in r.failed;
    }
    assert Elements(after) == Elements(before) + {id};
  }

  lemma {:induction false} InsertedDistinct(a: seq<string>, b: seq<string>, x: string)
    requires Distinct(a + b) && x !in a + b
    ensures Distinct(a + [x] + b)
  {
    var ab, axb := a + b, a + [x] + b;
    forall i, j | 0 <= i < j < |axb|
      ensures axb[i] != axb[j]
    {
      var i', j' := if i < |a| then i else i - 1, if j < |a| then j else j - 1;
      assert i != |a| ==> axb[i] == ab[i'];
      assert j != |a| ==> axb[j] == ab[j'];
    }
  }

  lemma {:induction false} TakenKeepsSound(graph: CoordinationGraph, plan: Plan, r: Request, m: Message)
    requires RequestSound(graph, plan, r) && Allows(graph, r, Taken(m))
    ensures RequestSound(graph, plan, After(graph, r, Taken(m)))
  {
    MessageHasId(r.messages, m);
    var r' := After(graph, r, Taken(m));
    assert r'.submitted - r'.running == r.submitted - r.running;
  }

  lemma {:induction false} ReturnedKeepsSound(graph: CoordinationGraph, plan: Plan, r: Request, m: Message,
                                              answer: Option<seq<string>>)
    requires RequestSound(graph, plan, r) && Allows(graph, r, Returned(m, answer))
    ensures RequestSound(graph, plan, After(graph, r, Returned(m, answer)))
  {
    var r' := After(graph, r, Returned(m, answer));
    RecordKeepsAccounts(r, m.id, r'.answered, r'.failed);
  }

  lemma {:induction false} DeliveredKeepsSound(graph: CoordinationGraph, plan: Plan, r: Request, e: Event)
    requires ValidPlan(plan) && Represents(graph, plan)
    requires RequestSound(graph, plan, r) && e.Delivered? && Allows(graph, r, e)
    ensures RequestSound(graph, plan, After(graph, r, e))
  {
    var d := r.outbox[0];
    assert d in r.outbox;
    if Check(graph, d).None? && e.refusal.None? {
      DelegatedWithinHops(graph, plan, d, e.id);
      AcceptedKeepsSound(graph, plan, r, Delegated(d, e.id));
    }
  }

  lemma {:induction false} AcceptedKeepsSound(graph: CoordinationGraph, plan: Plan, r: Request, m: Message)
    requires RequestSound(graph, plan, r) && r.status == Active && r.outbox != []
    requires WithinHops(graph, plan, m) && m.id !in MessageIds(r.messages)
    ensures RequestSound(graph, plan, r.(outbox := r.outbox[1..], messages := r.messages + [m]))
  {
    var messages := r.messages + [m];
    assert MessageIds(messages) == MessageIds(r.messages) + {m.id};
    assert forall k :: 0 <= k < |r.messages| ==> r.messages[k].id in MessageIds(r.messages);
  }

  lemma {:induction false} EventKeepsSound(graph: CoordinationGraph, plan: Plan, r: Request, e: Event)
    requires ValidPlan(plan) && Represents(graph, plan)
    requires RequestSound(graph, plan, r) && Allows(graph, r, e)
    ensures RequestSound(graph, plan, After(graph, r, e))
  {
    match e
    case Taken(m) => TakenKeepsSound(graph, plan, r, m);
    case Returned(m, answer) => ReturnedKeepsSound(graph, plan, r, m, answer);
    case Delivered(_, _) => DeliveredKeepsSound(graph, plan, r, e);
    case Ended =>
  }

  /** An active request can always take a step. */
  lemma {:induction false} RequestNeverStuck(graph: CoordinationGraph, plan: Plan, r: Request) returns (e: Event)
    requires RequestSound(graph, plan, r) && r.status == Active
    ensures Allows(graph, r, e)
  {
    if r.outbox != [] {
      e := Delivered("", Some(Closed));
    } else if id :| id in r.running {
      assert id in MessageIds(r.messages);
      var m :| m in r.messages && m.id == id;
      e := Returned(m, None);
    } else if m :| m in r.messages && m.id !in r.submitted {
      e := Taken(m);
    } else {
      e := Ended;
    }
  }

  // ------------------------------------------------------------------ hop limit

  /** Only a plan with peer edges allows walks that are longer than the hop limit. */
  predicate AllowsLongWalks(plan: Plan) {
    plan.mode == Distributed && plan.edges != []
  }

  /** Without peer edges, no authorized delegation is refused for its hop count. */
  lemma {:induction false} HopLimitUnreachable(graph: CoordinationGraph, plan: Plan, r: Request, d: Delegation)
    requires ValidPlan(plan) && Represents(graph, plan) && !AllowsLongWalks(plan)
    requires RequestSound(graph, plan, r) && d in r.outbox
    ensures Check(graph, d) != Some(HopLimitExceeded)
  {
    if graph.Authorize(d.parent.target, d.target).Ok? {
      AuthorizeExact(graph, plan, d.parent.target, d.target);
      assert WithinHops(graph, plan, d.parent);
      WalkOneMore(Arrows(plan.edges), d.parent.trail, d.target);
      WalksAreShort(plan, d.parent.trail + [d.target]);
      DistinctCount(plan.agents);
    }
  }

  /** In every mode an accepted chain has at most twice as many deliveries as there are agents. */
  lemma {:induction false} ChainsAreBounded(graph: CoordinationGraph, plan: Plan, r: Request, m: Message)
    requires ValidPlan(plan) && Represents(graph, plan) && RequestSound(graph, plan, r) && m in r.messages
    ensures m.hop <= 2 * |plan.agents|
    ensures IsWalk(Arrows(plan.edges), m.trail) && m.trail[|m.trail| - 1] == m.target
  {
    assert WithinHops(graph, plan, m);
    DistinctCount(plan.agents);
    assert m.trail[0] in Elements(plan.agents);
    assert |Elements(plan.agents)| > 0;
  }

  // ---------------------------------------------------------------- termination

  function Load(r: Request, id: string): nat {
    if id !in r.submitted then 2 else if id in r.running then 1 else 0
  }

  /** The work that messages of one hop count still mean. */
  function Weigh(messages: seq<Message>, load: string -> nat, hop: nat): nat {
    if messages == [] then 0
    else
      var last := messages[|messages| - 1];
      Weigh(messages[..|messages| - 1], load, hop) + if last.hop == hop then load(last.id) else 0
  }

  /** The work that undelivered delegations to one hop count mean. */
  function Backlog(outbox: seq<Delegation>, hop: nat): nat {
    if outbox == [] then 0 else (if outbox[0].parent.hop + 1 == hop then 3 else 0) + Backlog(outbox[1..], hop)
  }

  /** The work left at each hop count, and at last the request itself. */
  function Work(r: Request, limit: nat): (w: seq<nat>)
    ensures |w| == limit + 3
  {
    seq(limit + 3, h requires 0 <= h < limit + 3 => WorkAt(r, limit, h))
  }

  function WorkAt(r: Request, limit: nat, h: nat): nat {
    if h == limit + 2 then (if r.status == Active then 1 else 0)
    else Weigh(r.messages, id => Load(r, id), h) + Backlog(r.outbox, h)
  }

  lemma {:induction false} WeighAgrees(messages: seq<Message>, f: string -> nat, g: string -> nat, hop: nat)
    requires forall m :: m in messages ==> f(m.id) == g(m.id)
    ensures Weigh(messages, f, hop) == Weigh(messages, g, hop)
  {
    if messages != [] {
      WeighAgrees(messages[..|messages| - 1], f, g, hop);
    }
  }

  lemma {:induction false} WeighChange(messages: seq<Message>, f: string -> nat, g: string -> nat, x: Message, hop: nat)
    requires DistinctMessages(messages) && x in messages
    requires forall m :: m in messages && m.id != x.id ==> f(m.id) == g(m.id)
    ensures Weigh(messages, f, hop) + (if x.hop == hop then g(x.id) else 0)
            == Weigh(messages, g, hop) + (if x.hop == hop then f(x.id) else 0)
  {
    var n := |messages| - 1;
    if messages[n] == x {
      WeighAgrees(messages[..n], f, g, hop);
    } else {
      assert x in messages[..n];
      assert messages[n].id != x.id;
      WeighChange(messages[..n], f, g, x, hop);
    }
  }

  /** A step at hop count `k` that leaves earlier hop counts alone lowers the measure. */
  lemma {:induction false} LowersAt(r: Request, r': Request, limit: nat, k: nat)
    requires k < limit + 3
    requires forall h: nat :: h < k ==> WorkAt(r', limit, h) == WorkAt(r, limit, h)
    requires WorkAt(r', limit, k) < WorkAt(r, limit, k)
    ensures Less(Work(r', limit), Work(r, limit))
  {
    assert Work(r', limit)[..k] == Work(r, limit)[..k];
    assert Work(r', limit)[k] < Work(r, limit)[k];
  }

  lemma {:induction false} TakenLowers(graph: CoordinationGraph, plan: Plan, r: Request, m: Message)
    requires RequestSound(graph, plan, r) && Allows(graph, r, Taken(m))
    ensures Less(Work(After(graph, r, Taken(m)), graph.HopLimit()), Work(r, graph.HopLimit()))
  {
    var r', limit := After(graph, r, Taken(m)), graph.HopLimit();
    assert WithinHops(graph, plan, m);
    forall h: nat | h <= m.hop
      ensures WorkAt(r', limit, h) + (if h == m.hop then 1 else 0) == WorkAt(r, limit, h)
    {
      WeighChange(r.messages, id => Load(r, id), id => Load(r', id), m, h);
    }
    LowersAt(r, r', limit, m.hop);
  }

  lemma {:induction false} BacklogAbove(outbox: seq<Delegation>, hop: nat)
    requires forall d :: d in outbox ==> d.parent.hop + 1 > hop
    ensures Backlog(outbox, hop) == 0
  {
    if outbox != [] {
      assert outbox[0] in outbox;
      BacklogAbove(outbox[1..], hop);
    }
  }

  lemma {:induction false} ReturnedLowers(graph: CoordinationGraph, plan: Plan, r: Request, m: Message,
                                          answer: Option<seq<string>>)
    requires RequestSound(graph, plan, r) && Allows(graph, r, Returned(m, answer))
    ensures Less(Work(After(graph, r, Returned(m, answer)), graph.HopLimit()), Work(r, graph.HopLimit()))
  {
    var r', limit := After(graph, r, Returned(m, answer)), graph.HopLimit();
    assert WithinHops(graph, plan, m);
    forall h: nat | h <= m.hop
      ensures WorkAt(r', limit, h) + (if h == m.hop then 1 else 0) == WorkAt(r, limit, h)
    {
      WeighChange(r.messages, id => Load(r, id), id => Load(r', id), m, h);
      BacklogAbove(r'.outbox, h);
    }
    LowersAt(r, r', limit, m.hop);
  }

  lemma {:induction false} DeliveredLowers(graph: CoordinationGraph, plan: Plan, r: Request, e: Event)
    requires RequestSound(graph, plan, r) && e.Delivered? && Allows(graph, r, e)
    ensures Less(Work(After(graph, r, e), graph.HopLimit()), Work(r, graph.HopLimit()))
  {
    var r', limit := After(graph, r, e), graph.HopLimit();
    var d := r.outbox[0];
    assert d in r.outbox && WithinHops(graph, plan, d.parent);
    var k := d.parent.hop + 1;
    forall h: nat | h <= k
      ensures h < k ==> WorkAt(r', limit, h) == WorkAt(r, limit, h)
      ensures h == k ==> WorkAt(r', limit, h) < WorkAt(r, limit, h)
    {
      if r'.messages != r.messages {
        var m := Delegated(d, e.id);
        assert r'.messages[..|r'.messages| - 1] == r.messages;
        assert m.id !in r.submitted;
        WeighAgrees(r.messages, id => Load(r, id), id => Load(r', id), h);
      } else {
        WeighAgrees(r.messages, id => Load(r, id), id => Load(r', id), h);
      }
    }
    LowersAt(r, r', limit, k);
  }

  lemma {:induction false} EndedLowers(graph: CoordinationGraph, r: Request)
    requires Allows(graph, r, Ended)
    ensures Less(Work(After(graph, r, Ended), graph.HopLimit()), Work(r, graph.HopLimit()))
  {
    var r', limit := After(graph, r, Ended), graph.HopLimit();
    forall h: nat | h < limit + 2
      ensures WorkAt(r', limit, h) == WorkAt(r, limit, h)
    {
      WeighAgrees(r.messages, id => Load(r, id), id => Load(r', id), h);
    }
    LowersAt(r, r', limit, limit + 2);
  }

  lemma {:induction false} EventLowersWork(graph: CoordinationGraph, plan: Plan, r: Request, e: Event)
    requires RequestSound(graph, plan, r) && Allows(graph, r, e)
    ensures Less(Work(After(graph, r, e), graph.HopLimit()), Work(r, graph.HopLimit()))
  {
    match e
    case Taken(m) => TakenLowers(graph, plan, r, m);
    case Returned(m, answer) => ReturnedLowers(graph, plan, r, m, answer);
    case Delivered(_, _) => DeliveredLowers(graph, plan, r, e);
    case Ended => EndedLowers(graph, r);
  }

  ghost predicate StepsTo(graph: CoordinationGraph, r: Request, e: Event, r': Request) {
    Allows(graph, r, e) && r' == After(graph, r, e)
  }

  lemma {:induction false} RunStaysSound(graph: CoordinationGraph, plan: Plan,
                                         run: nat -> Request, events: nat -> Event, i: nat)
    requires ValidPlan(plan) && Represents(graph, plan) && RequestSound(graph, plan, run(0))
    requires forall k: nat :: k < i ==> StepsTo(graph, run(k), events(k), run(k + 1))
    ensures RequestSound(graph, plan, run(i))
  {
    if i > 0 {
      RunStaysSound(graph, plan, run, events, i - 1);
      assert StepsTo(graph, run(i - 1), events(i - 1), run(i - 1 + 1));
      EventKeepsSound(graph, plan, run(i - 1), events(i - 1));
    }
  }

  /**
   * Coordination terminates: whatever the agents and the channel answer, however many
   * delegations each response makes and however other requests interleave, a request
   * cannot take steps for ever.
   */
  lemma {:induction false} CoordinateTerminates(graph: CoordinationGraph, plan: Plan,
                                                run: nat -> Request, events: nat -> Event)
    requires ValidPlan(plan) && Represents(graph, plan) && RequestSound(graph, plan, run(0))
    ensures exists i: nat :: !StepsTo(graph, run(i), events(i), run(i + 1))
  {
    var limit := graph.HopLimit();
    var f: nat -> seq<nat> := i => Work(run(i), limit);
    if forall i: nat :: StepsTo(graph, run(i), events(i), run(i + 1)) {
      forall i: nat
        ensures |f(i)| == limit + 3 && Less(f(i + 1), f(i))
      {
        RunStaysSound(graph, plan, run, events, i);
        assert StepsTo(graph, run(i), events(i), run(i + 1));
        EventLowersWork(graph, plan, run(i), events(i));
      }
      assert Descends(f, limit + 3, 0);
      NoInfiniteDescent(f, limit + 3, 0);
    }
  }
}
