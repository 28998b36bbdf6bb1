/**
 * The executable view of a plan's coordination edges: construction, validation
 * and delivery lookups (mininet_ai/coordination/graph.py).
 */
module Graph {
  import opened Basics
  import opened Walks

  datatype Mode = Independent | Centralized | Hierarchical | Distributed

  datatype Relationship = Coordinates | Parent | Peer

  datatype Edge = Edge(source: string, target: string, relationship: Relationship) {
    function Arrow(): Arrow {
      (source, target)
    }
  }

  /** The part of a deployment plan that the graph reads. */
  datatype Plan = Plan(agents: seq<string>, mode: Mode, edges: seq<Edge>)

  datatype GraphError = InvalidPlan | DeliveryDenied | AgentUnknown

  datatype CoordinationGraph = CoordinationGraph(
    mode: Mode,
    agents: set<string>,
    edges: map<Arrow, Edge>,
    destinations: map<string, seq<string>>,
    coordinator: Option<string>) {

    /** Maximum explicit delegation depth. */
    function HopLimit(): nat {
      if |agents| * 2 > 1 then |agents| * 2 else 1
    }

    function EntryAgent(requested: string): Result<string, GraphError>
      requires mode == Centralized ==> coordinator.Some?
    {
      if requested !in agents then Err(AgentUnknown)
      else if mode == Centralized then Ok(coordinator.value)
      else Ok(requested)
    }

    function Authorize(source: string, target: string): Result<Edge, GraphError> {
      if source !in agents || target !in agents then Err(AgentUnknown)
      else if (source, target) !in edges then Err(DeliveryDenied)
      else Ok(edges[(source, target)])
    }
  }

  function Arrows(edges: seq<Edge>): set<Arrow> {
    set e | e in edges :: e.Arrow()
  }

  function Expected(mode: Mode): Option<Relationship> {
    match mode
    case Independent => None
    case Centralized => Some(Coordinates)
    case Hierarchical => Some(Parent)
    case Distributed => Some(Peer)
  }

  // -------------------------------------------------------- what a plan must be

  predicate EdgeFits(plan: Plan, e: Edge) {
    && Expected(plan.mode) == Some(e.relationship)
    && e.source in plan.agents && e.target in plan.agents && e.source != e.target
  }

  ghost predicate DistinctArrows(edges: seq<Edge>) {
    forall i, j :: 0 <= i < j < |edges| ==> edges[i].Arrow() != edges[j].Arrow()
  }

  function Star(hub: string, agents: set<string>): set<Arrow> {
    set t | t in agents && t != hub :: (hub, t)
  }

  ghost predicate Symmetric(arrows: set<Arrow>) {
    forall a :: a in arrows ==> (a.1, a.0) in arrows
  }

  ghost predicate ShapeFits(mode: Mode, agents: set<string>, arrows: set<Arrow>) {
    match mode
    case Independent => true
    case Centralized => exists hub :: hub in agents && arrows == Star(hub, agents)
    case Hierarchical => Acyclic(arrows)
    case Distributed => Symmetric(arrows)
  }

  ghost predicate ValidPlan(plan: Plan) {
    && Distinct(plan.agents)
    && (forall e :: e in plan.edges ==> EdgeFits(plan, e))
    && DistinctArrows(plan.edges)
    && ShapeFits(plan.mode, Elements(plan.agents), Arrows(plan.edges))
  }

  /** What a graph built from a plan holds. */
  ghost predicate Represents(graph: CoordinationGraph, plan: Plan) {
    && graph.mode == plan.mode
    && graph.agents == Elements(plan.agents)
    && graph.edges.Keys == Arrows(plan.edges)
    && (forall a :: a in graph.edges ==> graph.edges[a] in plan.edges && graph.edges[a].Arrow() == a)
    && DestinationsFit(graph.destinations, Arrows(plan.edges))
    && (plan.mode == Centralized ==>
          graph.coordinator.Some? && graph.coordinator.value in graph.agents
          && Arrows(plan.edges) == Star(graph.coordinator.value, graph.agents))
  }

  function TargetsOf(destinations: map<string, seq<string>>, source: string): seq<string> {
    if source in destinations then destinations[source] else []
  }

  ghost predicate DestinationsFit(destinations: map<string, seq<string>>, arrows: set<Arrow>) {
    && (forall s, t :: t in TargetsOf(destinations, s) <==> (s, t) in arrows)
    && (forall s :: s in destinations ==> Distinct(destinations[s]))
  }

  // -------------------------------------------------------------- construction

  lemma {:induction false} DestinationsGrow(destinations: map<string, seq<string>>, arrows: set<Arrow>, source: string,
                                            target: string)
    requires DestinationsFit(destinations, arrows) && (source, target) !in arrows
    ensures DestinationsFit(destinations[source := TargetsOf(destinations, source) + [target]], arrows
              + {(source, target)})
  {
    var grown := destinations[source := TargetsOf(destinations, source) + [target]];
    forall s, t
      ensures t in TargetsOf(grown, s) <==> (s, t) in arrows + {(source, target)}
    {
      assert t in TargetsOf(destinations, s) <==> (s, t) in arrows;
    }
    assert target !in TargetsOf(destinations, source);
  }

  /** Builds the graph, and succeeds on exactly the valid plans. */
  method Build(plan: Plan) returns (r: Result<CoordinationGraph, GraphError>)
    ensures r.Ok? <==> ValidPlan(plan)
    ensures r.Ok? ==> Represents(r.value, plan)
    ensures r.Err? ==> r.error == InvalidPlan
  {
    var agents := Elements(plan.agents);
    DistinctCount(plan.agents);
    if |agents| != |plan.agents| {
      return Err(InvalidPlan);
    }
    var fits, edges, destinations := CollectEdges(plan);
    if !fits {
      return Err(InvalidPlan);
    }
    var shaped, coordinator := ValidateShape(plan, agents, destinations);
    if !shaped {
      return Err(InvalidPlan);
    }
    r := Ok(CoordinationGraph(plan.mode, agents, edges, destinations, coordinator));
  }

  /** Checks every edge and lists the targets of each source. */
  method CollectEdges(plan: Plan) returns (fits: bool, edges: map<Arrow, Edge>, destinations: map<string, seq<string>>)
    ensures fits <==> (forall e :: e in plan.edges ==> EdgeFits(plan, e)) && DistinctArrows(plan.edges)
    ensures fits ==> edges.Keys == Arrows(plan.edges) && DestinationsFit(destinations, Arrows(plan.edges))
    ensures fits ==> forall a :: a in edges ==> edges[a] in plan.edges && edges[a].Arrow() == a
  {
    edges, destinations := map[], map[];
    for i := 0 to |plan.edges|
      invariant Collected(plan, i, edges, destinations)
    {
      var e := plan.edges[i];
      assert e in plan.edges;
      if !EdgeFits(plan, e) {
        return false, edges, destinations;
      }
      if e.Arrow() in edges {
        RepeatedArrow(plan.edges, i);
        return false, edges, destinations;
      }
      CollectEdge(plan, i, edges, destinations);
      edges := edges[e.Arrow() := e];
      destinations := destinations[e.source := TargetsOf(destinations, e.source) + [e.target]];
    }
    assert plan.edges[..|plan.edges|] == plan.edges;
    fits := true;
  }

  /** The first edges fit, have different arrows and are all recorded. */
  ghost predicate Collected(plan: Plan, n: nat, edges: map<Arrow, Edge>, destinations: map<string, seq<string>>)
    requires n <= |plan.edges|
  {
    && (forall k :: 0 <= k < n ==> EdgeFits(plan, plan.edges[k]))
    && DistinctArrows(plan.edges[..n])
    && edges.Keys == Arrows(plan.edges[..n])
    && (forall a :: a in edges ==> edges[a] in plan.edges && edges[a].Arrow() == a)
    && DestinationsFit(destinations, Arrows(plan.edges[..n]))
  }

  lemma {:induction false} CollectEdge(plan: Plan, n: nat, edges: map<Arrow, Edge>,
                                       destinations: map<string, seq<string>>)
    requires n < |plan.edges| && Collected(plan, n, edges, destinations)
    requires EdgeFits(plan, plan.edges[n]) && plan.edges[n].Arrow() !in edges
    ensures var e := plan.edges[n];
            Collected(plan, n + 1, edges[e.Arrow() := e],
                destinations[e.source := TargetsOf(destinations, e.source) + [e.target]])
  {
    TakeEdge(plan.edges, n);
    DestinationsGrow(destinations, Arrows(plan.edges[..n]), plan.edges[n].source, plan.edges[n].target);
  }

  lemma {:induction false} TakeEdge(edges: seq<Edge>, i: nat)
    requires i < |edges|
    ensures Arrows(edges[..i + 1]) == Arrows(edges[..i]) + {edges[i].Arrow()}
    ensures DistinctArrows(edges[..i]) && edges[i].Arrow() !in Arrows(edges[..i]) ==> DistinctArrows(edges[..i + 1])
  {
    assert edges[..i + 1] == edges[..i] + [edges[i]];
    assert forall k :: 0 <= k < i ==> edges[..i][k] in edges[..i];
  }

  lemma {:induction false} RepeatedArrow(edges: seq<Edge>, i: nat)
    requires i < |edges| && edges[i].Arrow() in Arrows(edges[..i])
    ensures !DistinctArrows(edges)
  {
    var e :| e in edges[..i] && e.Arrow() == edges[i].Arrow();
    var k :| 0 <= k < i && edges[..i][k] == e;
    assert edges[k].Arrow() == edges[i].Arrow();
  }

  /** Everything validation knows about the edges before it looks at their shape. */
  ghost predicate EdgesFit(plan: Plan, agents: set<string>, destinations: map<string, seq<string>>) {
    && Distinct(plan.agents) && agents == Elements(plan.agents)
    && (forall e :: e in plan.edges ==> EdgeFits(plan, e))
    && DistinctArrows(plan.edges)
    && DestinationsFit(destinations, Arrows(plan.edges))
  }

  method ValidateShape(plan: Plan, agents: set<string>, destinations: map<string, seq<string>>)
    returns (fits: bool, coordinator: Option<string>)
    requires EdgesFit(plan, agents, destinations)
    ensures fits <==> ShapeFits(plan.mode, agents, Arrows(plan.edges))
    ensures fits && plan.mode == Centralized ==>
              coordinator.Some? && coordinator.value in agents && Arrows(plan.edges) == Star(coordinator.value, agents)
  {
    coordinator := None;
    match plan.mode {
      case Independent => fits := true;
      case Centralized => coordinator := ValidateCentralized(plan, agents); fits := coordinator.Some?;
      case Hierarchical => fits := ValidateHierarchy(plan, destinations);
      case Distributed => fits := ValidatePeers(Arrows(plan.edges));
    }
  }

  /** The single source of the edges, or the only agent. */
  method ValidateCentralized(plan: Plan, agents: set<string>) returns (coordinator: Option<string>)
    requires agents == Elements(plan.agents) && forall e :: e in plan.edges ==> EdgeFits(plan, e)
    ensures coordinator.Some? <==> exists hub :: hub in agents && Arrows(plan.edges) == Star(hub, agents)
    ensures coordinator.Some? ==> coordinator.value in agents && Arrows(plan.edges) == Star(coordinator.value, agents)
  {
    if plan.agents == [] {
      return None;
    }
    if |agents| == 1 {
      var only := plan.agents[0];
      OnlyMember(agents, only);
      assert Star(only, agents) == {};
      if plan.edges != [] {
        assert plan.edges[0].Arrow() in Arrows(plan.edges);
        return None;
      }
      return Some(only);
    }
    var sources := set e | e in plan.edges :: e.source;
    forall hub | hub in agents && Arrows(plan.edges) == Star(hub, agents)
      ensures |sources| == 1
    {
      OneSource(plan.edges, agents, hub);
    }
    if |sources| != 1 {
      return None;
    }
    var first := plan.edges[0].source;
    OnlyMember(sources, first);
    forall hub | hub in agents && Arrows(plan.edges) == Star(hub, agents)
      ensures hub == first
    {
      assert plan.edges[0].Arrow() in Star(hub, agents);
    }
    if Arrows(plan.edges) != Star(first, agents) {
      return None;
    }
    coordinator := Some(first);
  }

  lemma {:induction false} OnlyMember(names: set<string>, only: string)
    requires |names| == 1 && only in names
    ensures names == {only}
  {
    SubsetCount({only}, names);
  }

  lemma {:induction false} OneSource(edges: seq<Edge>, agents: set<string>, hub: string)
    requires hub in agents && |agents| > 1 && Arrows(edges) == Star(hub, agents)
    ensures |set e | e in edges :: e.source| == 1
  {
    var sources := set e | e in edges :: e.source;
    if agents <= {hub} {
      SubsetCount(agents, {hub});
    }
    var t :| t in agents && t != hub;
    assert (hub, t) in Arrows(edges);
    assert hub in sources;
    forall s | s in sources
      ensures s == hub
    {
      var e :| e in edges && e.source == s;
      assert e.Arrow() in Star(hub, agents);
    }
    assert sources == {hub};
  }

  method ValidatePeers(arrows: set<Arrow>) returns (fits: bool)
    ensures fits <==> Symmetric(arrows)
  {
    var rest := arrows;
    while rest != {}
      invariant rest <= arrows
      invariant forall a :: a in arrows - rest ==> (a.1, a.0) in arrows
    {
      var a :| a in rest;
      if (a.1, a.0) !in arrows {
        return false;
      }
      rest := rest - {a};
    }
    fits := true;
  }

  // ------------------------------------------------------------------ hierarchy

  /** The sources of an agent's edges that have not been visited yet. */
  function Waiting(arrows: set<Arrow>, visited: set<string>, agent: string): set<string> {
    set s | s in Predecessors(arrows, agent) && s !in visited
  }

  ghost predicate Counted(arrows: set<Arrow>, visited: set<string>, agents: seq<string>, incoming: map<string, int>) {
    && incoming.Keys == Elements(agents)
    && forall a :: a in agents ==> incoming[a] == |Waiting(arrows, visited, a)|
  }

  method CountIncoming(agents: seq<string>, edges: seq<Edge>) returns (incoming: map<string, int>)
    requires DistinctArrows(edges) && Within(Arrows(edges), Elements(agents))
    ensures Counted(Arrows(edges), {}, agents, incoming)
  {
    incoming := map a | a in agents :: 0;
    assert forall a :: Waiting({}, {}, a) == {};
    for i := 0 to |edges|
      invariant Counted(Arrows(edges[..i]), {}, agents, incoming)
    {
      assert edges[i].Arrow() in Arrows(edges);
      ArrowsGrow(edges, i);
      CountOneMore(Arrows(edges[..i]), edges[i].Arrow(), agents, incoming);
      incoming := incoming[edges[i].target := incoming[edges[i].target] + 1];
    }
    assert edges[..|edges|] == edges;
  }

  lemma {:induction false} ArrowsGrow(edges: seq<Edge>, i: nat)
    requires i < |edges| && DistinctArrows(edges)
    ensures Arrows(edges[..i + 1]) == Arrows(edges[..i]) + {edges[i].Arrow()}
    ensures edges[i].Arrow() !in Arrows(edges[..i])
  {
    assert edges[..i + 1] == edges[..i] + [edges[i]];
    if edges[i].Arrow() in Arrows(edges[..i]) {
      RepeatedArrow(edges, i);
    }
  }

  lemma {:induction false} CountOneMore(arrows: set<Arrow>, arrow: Arrow, agents: seq<string>,
                                        incoming: map<string, int>)
    requires arrow !in arrows && arrow.1 in agents
    requires Counted(arrows, {}, agents, incoming)
    ensures Counted(arrows + {arrow}, {}, agents, incoming[arrow.1 := incoming[arrow.1] + 1])
  {
    forall a | a in agents
      ensures |Waiting(arrows + {arrow}, {}, a)| == |Waiting(arrows, {}, a)| + if a == arrow.1 then 1 else 0
    {
      WaitingGrows(arrows, arrow, a);
    }
  }

  lemma {:induction false} PredecessorsGrow(arrows: set<Arrow>, arrow: Arrow, a: string)
    ensures Predecessors(arrows + {arrow}, a) == Predecessors(arrows, a) + if a == arrow.1 then {arrow.0} else {}
  {
  }

  lemma {:induction false} WaitingGrows(arrows: set<Arrow>, arrow: Arrow, a: string)
    requires arrow !in arrows
    ensures |Waiting(arrows + {arrow}, {}, a)| == |Waiting(arrows, {}, a)| + if a == arrow.1 then 1 else 0
  {
    var before, after := Predecessors(arrows, a), Predecessors(arrows + {arrow}, a);
    PredecessorsGrow(arrows, arrow, a);
    assert Waiting(arrows, {}, a) == before && Waiting(arrows + {arrow}, {}, a) == after;
    assert a == arrow.1 ==> arrow.0 !in before;
  }

  /** The visit so far: `order` lists every agent that has become ready, of which the first `v` were visited. */
  ghost predicate Visiting(arrows: set<Arrow>, agents: seq<string>, order: seq<string>) {
    && Distinct(order) && Elements(order) <= Elements(agents)
    && Topological(arrows, order)
  }

  ghost predicate ReadyExactly(agents: seq<string>, order: seq<string>, incoming: map<string, int>)
    requires incoming.Keys == Elements(agents)
  {
    forall a :: a in agents ==> (a in order <==> incoming[a] == 0)
  }

  /** Visits every agent all of whose parents were visited; a hierarchy is one where that reaches everyone. */
  method ValidateHierarchy(plan: Plan, destinations: map<string, seq<string>>) returns (acyclic: bool)
    requires Distinct(plan.agents) && DistinctArrows(plan.edges)
    requires Within(Arrows(plan.edges), Elements(plan.agents))
    requires DestinationsFit(destinations, Arrows(plan.edges))
    ensures acyclic <==> Acyclic(Arrows(plan.edges))
  {
    ghost var arrows := Arrows(plan.edges);
    var agents := plan.agents;
    var incoming := CountIncoming(agents, plan.edges);
    var ready := InitiallyReady(arrows, agents, incoming);
    var visited := 0;
    ghost var order := ready;
    assert Elements(order[..0]) == {};
    while ready != []
      invariant visited <= |order| && ready == order[visited..]
      invariant Visiting(arrows, agents, order)
      invariant Counted(arrows, Elements(order[..visited]), agents, incoming)
      invariant ReadyExactly(agents, order, incoming)
      decreases |agents| - visited
    {
      OrderFits(agents, order);
      var targets := TargetsOf(destinations, ready[0]);
      FitTargets(arrows, agents, destinations, ready[0]);
      incoming, ready, order := Release(arrows, agents, targets, incoming, ready, order, visited);
      visited := visited + 1;
    }
    acyclic := visited == |agents|;
    assert order[..visited] == order;
    OrderFits(agents, order);
    if acyclic {
      OrderedMeansAcyclic(arrows, order);
    } else {
      LeftBehindMeansCycle(arrows, agents, order, incoming);
    }
  }

  lemma {:induction false} FitTargets(arrows: set<Arrow>, agents: seq<string>, destinations: map<string, seq<string>>,
                                      source: string)
    requires DestinationsFit(destinations, arrows) && Within(arrows, Elements(agents))
    ensures TargetsFit(arrows, source, TargetsOf(destinations, source), agents)
  {
    assert forall t :: (source, t) in arrows ==> t in Elements(agents);
  }

  lemma {:induction false} OrderFits(agents: seq<string>, order: seq<string>)
    requires Distinct(agents) && Distinct(order) && Elements(order) <= Elements(agents)
    ensures |order| <= |agents|
    ensures |order| == |agents| ==> Elements(order) == Elements(agents)
  {
    DistinctCount(agents);
    DistinctCount(order);
    SubsetCount(Elements(order), Elements(agents));
  }

  lemma {:induction false} LeftBehindMeansCycle(arrows: set<Arrow>, agents: seq<string>, order: seq<string>,
                                                incoming: map<string, int>)
    requires Distinct(agents) && Visiting(arrows, agents, order) && |order| != |agents|
    requires Within(arrows, Elements(agents))
    requires Counted(arrows, Elements(order), agents, incoming) && ReadyExactly(agents, order, incoming)
    ensures !Acyclic(arrows)
  {
    DistinctCount(agents);
    DistinctCount(order);
    var rest := Elements(agents) - Elements(order);
    forall a | a in rest
      ensures Predecessors(arrows, a) * rest != {}
    {
      assert incoming[a] == |Waiting(arrows, Elements(order), a)| != 0;
      var s :| s in Waiting(arrows, Elements(order), a);
      assert (s, a) in arrows;
      assert s in Predecessors(arrows, a) * rest;
    }
    StuckMeansCycle(arrows, rest);
  }

  method InitiallyReady(ghost arrows: set<Arrow>, agents: seq<string>, incoming: map<string, int>)
    returns (ready: seq<string>)
    requires Distinct(agents) && Counted(arrows, {}, agents, incoming)
    ensures Visiting(arrows, agents, ready) && ReadyExactly(agents, ready, incoming)
  {
    ready := [];
    for i := 0 to |agents|
      invariant Distinct(ready)
      invariant forall a :: a in ready ==> a in agents[..i]
      invariant forall k :: 0 <= k < i ==> (agents[k] in ready <==> incoming[agents[k]] == 0)
    {
      assert agents[i] !in agents[..i];
      if incoming[agents[i]] == 0 {
        ready := ready + [agents[i]];
      }
      assert agents[..i + 1] == agents[..i] + [agents[i]];
    }
    assert agents[..|agents|] == agents;
    ReadyHaveNoPredecessors(arrows, agents, incoming, ready);
  }

  lemma {:induction false} ReadyHaveNoPredecessors(arrows: set<Arrow>, agents: seq<string>, incoming: map<string, int>,
                                                   ready: seq<string>)
    requires Counted(arrows, {}, agents, incoming) && ReadyExactly(agents, ready, incoming)
    requires forall a :: a in ready ==> a in agents
    ensures Topological(arrows, ready)
  {
    forall j | 0 <= j < |ready|
      ensures ComesAfter(arrows, ready, j)
    {
      assert ready[j] in ready;
      assert Waiting(arrows, {}, ready[j]) == Predecessors(arrows, ready[j]);
    }
  }

  /** Halfway through a visit: only the counts of `lowered` know that `source` was visited. */
  ghost predicate Lowering(arrows: set<Arrow>, visited: set<string>, source: string, lowered: seq<string>,
                           agents: seq<string>, incoming: map<string, int>) {
    && incoming.Keys == Elements(agents)
    && forall a :: a in agents ==>
         incoming[a] == |Waiting(arrows, if a in lowered then visited + {source} else visited, a)|
  }

  lemma {:induction false} LowerOne(arrows: set<Arrow>, visited: set<string>, source: string, lowered: seq<string>,
                 agents: seq<string>, incoming: map<string, int>, target: string)
    requires Lowering(arrows, visited, source, lowered, agents, incoming)
    requires source !in visited && target !in lowered && target in agents && (source, target) in arrows
    ensures incoming[target] > 0
    ensures Lowering(arrows, visited, source, lowered + [target], agents, incoming[target := incoming[target] - 1])
  {
    assert source in Waiting(arrows, visited, target);
    assert Waiting(arrows, visited, target) == Waiting(arrows, visited + {source}, target) + {source};
  }

  lemma {:induction false} LoweredAll(arrows: set<Arrow>, visited: set<string>, source: string, targets: seq<string>,
                   agents: seq<string>, incoming: map<string, int>)
    requires Lowering(arrows, visited, source, targets, agents, incoming)
    requires forall t :: t in targets <==> (source, t) in arrows
    ensures Counted(arrows, visited + {source}, agents, incoming)
  {
    forall a | a in agents
      ensures incoming[a] == |Waiting(arrows, visited + {source}, a)|
    {
      if a !in targets {
        assert (source, a) !in arrows;
        assert Waiting(arrows, visited, a) == Waiting(arrows, visited + {source}, a);
      }
    }
  }

  ghost predicate TargetsFit(arrows: set<Arrow>, source: string, targets: seq<string>, agents: seq<string>) {
    && Distinct(targets)
    && (forall t :: t in targets <==> (source, t) in arrows)
    && (forall t :: t in targets ==> t in agents)
  }

  /** Visits the first ready agent: lowers the counts of its targets and lines up those that reach zero. */
  method Release(ghost arrows: set<Arrow>, agents: seq<string>, targets: seq<string>,
                 incoming0: map<string, int>, ready0: seq<string>, ghost order0: seq<string>, ghost visited: nat)
    returns (incoming: map<string, int>, ready: seq<string>, ghost order: seq<string>)
    requires visited < |order0| && ready0 == order0[visited..]
    requires Visiting(arrows, agents, order0) && TargetsFit(arrows, order0[visited], targets, agents)
    requires Counted(arrows, Elements(order0[..visited]), agents, incoming0) && ReadyExactly(agents, order0, incoming0)
    ensures visited < |order| && ready == order[visited + 1..]
    ensures Visiting(arrows, agents, order)
    ensures Counted(arrows, Elements(order[..visited + 1]), agents, incoming) && ReadyExactly(agents, order, incoming)
  {
    ghost var source := order0[visited];
    ghost var before := Elements(order0[..visited]);
    VisitOneMore(order0, visited);
    incoming, ready, order := incoming0, ready0[1..], order0;
    for k := 0 to |targets|
      invariant order0 <= order && ready == order[visited + 1..]
      invariant Visiting(arrows, agents, order)
      invariant Lowering(arrows, before, source, targets[..k], agents, incoming)
      invariant ReadyExactly(agents, order, incoming)
    {
      incoming, ready, order :=
        Lower(arrows, agents, targets, k, incoming, ready, order, Elements(order0[..visited + 1]), before, source,
            visited + 1);
    }
    assert targets[..|targets|] == targets;
    LoweredAll(arrows, before, source, targets, agents, incoming);
    assert order[..visited + 1] == order0[..visited + 1];
  }

  /** One target of the visited agent. */
  method Lower(ghost arrows: set<Arrow>, agents: seq<string>, targets: seq<string>, k: nat,
               incoming0: map<string, int>, ready0: seq<string>, ghost order0: seq<string>,
               ghost after: set<string>, ghost before: set<string>, ghost source: string, ghost visited: nat)
    returns (incoming: map<string, int>, ready: seq<string>, ghost order: seq<string>)
    requires k < |targets| && TargetsFit(arrows, source, targets, agents)
    requires visited <= |order0| && ready0 == order0[visited..]
    requires source !in before && after == before + {source} && after <= Elements(order0)
    requires Visiting(arrows, agents, order0)
    requires Lowering(arrows, before, source, targets[..k], agents, incoming0)
             && ReadyExactly(agents, order0, incoming0)
    ensures order0 <= order && ready == order[visited..]
    ensures Visiting(arrows, agents, order)
    ensures Lowering(arrows, before, source, targets[..k + 1], agents, incoming)
              && ReadyExactly(agents, order, incoming)
  {
    var target := targets[k];
    NextTarget(targets, k);
    assert (source, target) in arrows;
    LowerOne(arrows, before, source, targets[..k], agents, incoming0, target);
    incoming, ready, order := incoming0[target := incoming0[target] - 1], ready0, order0;
    if incoming[target] == 0 {
      ReadyComesLast(arrows, order0, after, target);
      LineUp(arrows, agents, order0, target);
      ready := ready0 + [target];
      order := order0 + [target];
    }
  }

  lemma {:induction false} NextTarget(targets: seq<string>, k: nat)
    requires k < |targets| && Distinct(targets)
    ensures targets[..k + 1] == targets[..k] + [targets[k]] && targets[k] !in targets[..k]
  {
  }

  lemma {:induction false} VisitOneMore(order: seq<string>, visited: nat)
    requires visited < |order| && Distinct(order)
    ensures order[visited] !in Elements(order[..visited])
    ensures Elements(order[..visited + 1]) == Elements(order[..visited]) + {order[visited]}
  {
    assert order[..visited + 1] == order[..visited] + [order[visited]];
  }

  lemma {:induction false} LineUp(arrows: set<Arrow>, agents: seq<string>, order: seq<string>, target: string)
    requires Visiting(arrows, agents, order) && target in agents && target !in order
    requires Topological(arrows, order + [target])
    ensures Visiting(arrows, agents, order + [target])
  {
    assert Elements(order + [target]) == Elements(order) + {target};
  }

  lemma {:induction false} ReadyComesLast(arrows: set<Arrow>, order: seq<string>, after: set<string>, target: string)
    requires Topological(arrows, order) && after <= Elements(order) && Waiting(arrows, after, target) == {}
    ensures Topological(arrows, order + [target])
  {
    var longer := order + [target];
    forall j | 0 <= j < |longer|
      ensures ComesAfter(arrows, longer, j)
    {
      if j < |order| {
        assert ComesAfter(arrows, order, j);
        assert longer[..j] == order[..j];
      } else {
        assert longer[..j] == order;
        assert Predecessors(arrows, target) <= after by {
          assert forall s :: s in Predecessors(arrows, target) ==> s !in Waiting(arrows, after, target);
        }
      }
    }
  }

  // ------------------------------------------------------------ hops and walks

  /** Every authorized delivery follows an edge of the plan. */
  lemma {:induction false} AuthorizeExact(graph: CoordinationGraph, plan: Plan, source: string, target: string)
    requires ValidPlan(plan) && Represents(graph, plan)
    ensures graph.Authorize(source, target).Ok? <==> (source, target) in Arrows(plan.edges)
    ensures graph.Authorize(source, target).Ok? ==> graph.Authorize(source, target).value.Arrow() == (source, target)
  {
    if (source, target) in Arrows(plan.edges) {
      var e :| e in plan.edges && e.Arrow() == (source, target);
      assert EdgeFits(plan, e);
    }
  }

  lemma {:induction false} StarIsAcyclic(hub: string, agents: set<string>)
    ensures Acyclic(Star(hub, agents))
  {
    var arrows := Star(hub, agents);
    forall w
      ensures !IsCycle(arrows, w)
    {
      if |w| >= 2 && IsWalk(arrows, w) {
        assert (w[0], w[1]) in arrows && (w[|w| - 2], w[|w| - 2 + 1]) in arrows;
      }
    }
  }

  /** Outside distributed mode, deliveries can only walk fewer edges than there are agents. */
  lemma {:induction false} WalksAreShort(plan: Plan, w: seq<string>)
    requires ValidPlan(plan) && plan.mode != Distributed
    requires IsWalk(Arrows(plan.edges), w) && w[0] in plan.agents
    ensures |w| - 1 < |plan.agents|
  {
    var arrows, agents := Arrows(plan.edges), Elements(plan.agents);
    DistinctCount(plan.agents);
    assert Acyclic(arrows) by {
      match plan.mode
      case Independent => NoEdges(plan);
      case Centralized =>
        var hub :| hub in agents && arrows == Star(hub, agents);
        StarIsAcyclic(hub, agents);
      case Hierarchical =>
    }
    assert Within(arrows, agents);
    AcyclicIffShortWalks(arrows, agents);
  }

  lemma {:induction false} NoEdges(plan: Plan)
    requires ValidPlan(plan) && plan.mode == Independent
    ensures Acyclic(Arrows(plan.edges))
  {
    assert plan.edges != [] ==> EdgeFits(plan, plan.edges[0]);
    assert Arrows(plan.edges) == {};
    forall w
      ensures !IsCycle(Arrows(plan.edges), w)
    {
      assert |w| >= 2 ==> (w[0], w[1]) !in Arrows(plan.edges);
    }
  }

  /** In distributed mode the hop limit is needed: one edge allows walks of any length. */
  lemma {:induction false} PeersWalkForever(plan: Plan, e: Edge, n: nat) returns (w: seq<string>)
    requires ValidPlan(plan) && plan.mode == Distributed && e in plan.edges
    ensures IsWalk(Arrows(plan.edges), w) && w[0] == e.source && |w| == n + 1
  {
    assert e.Arrow() in Arrows(plan.edges);
    var cycle := [e.source, e.target, e.source];
    assert IsCycle(Arrows(plan.edges), cycle);
    RoundIsWalk(Arrows(plan.edges), cycle, n);
    w := Round(cycle, n);
  }
}
