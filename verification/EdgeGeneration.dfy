/**
 * How the compiler turns a coordination specification over deployments into edges
 * between agent instances (mininet_ai/compiler/compiler.py, `_coordination`), and
 * which compiled plans the runtime graph accepts.
 */
module EdgeGeneration {
  import opened Basics
  import opened Walks
  import opened Graph

  datatype Instance = Instance(id: string, deployment: string, targets: set<string>)

  datatype Relation = Relation(source: string, targets: seq<string>)

  /** `near` lists the neighbouring nodes for `peers: topology-neighbors`; `None` means `peers: all`. */
  datatype Spec = Spec(mode: Mode, coordinator: string, near: Option<set<set<string>>>, relations: seq<Relation>)

  datatype CompilationError = UnknownCoordinator | CoordinatorNotSingle | UnknownSource | UnknownTarget

  function Known(instances: seq<Instance>): set<string> {
    set i | i in instances :: i.deployment
  }

  function Ids(instances: seq<Instance>): seq<string> {
    seq(|instances|, k requires 0 <= k < |instances| => instances[k].id)
  }

  /** The instances of one deployment, in order. */
  function InstancesOf(instances: seq<Instance>, deployment: string): (own: seq<Instance>)
    ensures forall i :: i in own <==> i in instances && i.deployment == deployment
  {
    if instances == [] then []
    else
      var n := |instances| - 1;
      InstancesOf(instances[..n], deployment) + if instances[n].deployment == deployment then [instances[n]] else []
  }

  /** The relation between deployments that a hierarchy declares. */
  function Declared(relations: seq<Relation>): set<Arrow> {
    set r, t | r in relations && t in r.targets :: (r.source, t)
  }

  ghost predicate AllKnown(relations: seq<Relation>, known: set<string>) {
    forall r :: r in relations ==> r.source in known && forall t :: t in r.targets ==> t in known
  }

  /** Some relation names a deployment that compiled to no instance. */
  ghost predicate NamesUnknown(relations: seq<Relation>, known: set<string>) {
    exists r :: r in relations && (r.source !in known || exists t :: t in r.targets && t !in known)
  }

  function Cross(sources: seq<Instance>, targets: seq<Instance>, relationship: Relationship): set<Edge> {
    set s, t | s in sources && t in targets :: Edge(s.id, t.id, relationship)
  }

  predicate Near(near: Option<set<set<string>>>, s: Instance, t: Instance) {
    near.None? || exists left, right :: left in s.targets && right in t.targets && {left, right} in near.value
  }

  // ------------------------------------------------------------------- compile

  /** The edges a specification asks for: each declared relation holds between all instances. */
  ghost predicate Compiled(spec: Spec, instances: seq<Instance>, edges: set<Edge>) {
    match spec.mode
    case Independent => edges == {}
    case Centralized =>
      exists hub :: hub in instances && hub.deployment == spec.coordinator && IsHub(instances, hub, edges)
    case Hierarchical => AllKnown(spec.relations, Known(instances)) && Expands(spec.relations, instances, edges)
    case Distributed => IsPeering(spec.near, instances, edges)
  }

  ghost predicate FromHub(instances: seq<Instance>, hub: Instance, e: Edge) {
    e.relationship == Coordinates && e.source == hub.id && e.target != hub.id && e.target in Ids(instances)
  }

  ghost predicate IsHub(instances: seq<Instance>, hub: Instance, edges: set<Edge>) {
    && (forall e :: e in edges ==> FromHub(instances, hub, e))
    && (forall id :: id in Ids(instances) && id != hub.id ==> Edge(hub.id, id, Coordinates) in edges)
  }

  ghost predicate Related(arrows: set<Arrow>, instances: seq<Instance>, e: Edge) {
    exists s, t :: s in instances && t in instances && (s.deployment, t.deployment) in arrows
        && e == Edge(s.id, t.id, Parent)
  }

  ghost predicate Expands(relations: seq<Relation>, instances: seq<Instance>, edges: set<Edge>) {
    forall e :: e in edges <==> Related(Declared(relations), instances, e)
  }

  ghost predicate Joins(near: Option<set<set<string>>>, s: Instance, t: Instance, e: Edge) {
    Near(near, s, t) && (e == Edge(s.id, t.id, Peer) || e == Edge(t.id, s.id, Peer))
  }

  ghost predicate Peers(near: Option<set<set<string>>>, instances: seq<Instance>, e: Edge) {
    exists i, j :: 0 <= i < j < |instances| && Joins(near, instances[i], instances[j], e)
  }

  ghost predicate IsPeering(near: Option<set<set<string>>>, instances: seq<Instance>, edges: set<Edge>) {
    forall e :: e in edges <==> Peers(near, instances, e)
  }

  method Compile(spec: Spec, instances: seq<Instance>) returns (r: Result<set<Edge>, CompilationError>)
    ensures r.Ok? ==> Compiled(spec, instances, r.value)
    ensures r.Err? <==>
              match spec.mode
              case Centralized => |InstancesOf(instances, spec.coordinator)| != 1
              case Hierarchical => NamesUnknown(spec.relations, Known(instances))
              case _ => false
  {
    match spec.mode {
      case Independent => r := Ok({});
      case Centralized =>
        var coordinators := InstancesOf(instances, spec.coordinator);
        if spec.coordinator !in Known(instances) {
          assert coordinators != [] ==> coordinators[0] in instances;
          return Err(UnknownCoordinator);
        }
        if |coordinators| != 1 {
          return Err(CoordinatorNotSingle);
        }
        var hub := coordinators[0];
        assert hub in coordinators;
        var edges := set id | id in Ids(instances) && id != hub.id :: Edge(hub.id, id, Coordinates);
        assert IsHub(instances, hub, edges);
        r := Ok(edges);
      case Hierarchical => r := CompileHierarchy(spec.relations, instances);
      case Distributed =>
        var edges := CompilePeers(spec.near, instances);
        r := Ok(edges);
    }
  }

  method CompileHierarchy(relations: seq<Relation>, instances: seq<Instance>)
    returns (r: Result<set<Edge>, CompilationError>)
    ensures r.Ok? ==> AllKnown(relations, Known(instances)) && Expands(relations, instances, r.value)
    ensures r.Err? <==> NamesUnknown(relations, Known(instances))
  {
    var edges := {};
    for i := 0 to |relations|
      invariant AllKnown(relations[..i], Known(instances)) && Expands(relations[..i], instances, edges)
    {
      var relation := relations[i];
      assert relation in relations;
      if relation.source !in Known(instances) {
        return Err(UnknownSource);
      }
      var added := CompileRelation(relation, instances);
      if added.Err? {
        return Err(added.error);
      }
      assert relations[..i + 1] == relations[..i] + [relation];
      ExpandsMore(relations[..i], relation, instances, edges, added.value);
      edges := edges + added.value;
    }
    assert relations[..|relations|] == relations;
    r := Ok(edges);
  }

  lemma {:induction false} ExpandsMore(relations: seq<Relation>, relation: Relation, instances: seq<Instance>,
                                       edges: set<Edge>, added: set<Edge>)
    requires Expands(relations, instances, edges) && Expands([relation], instances, added)
    ensures Expands(relations + [relation], instances, edges + added)
  {
    var before, own, after := Declared(relations), Declared([relation]), Declared(relations + [relation]);
    assert after == before + own;
    forall e
      ensures e in edges + added <==> Related(after, instances, e)
    {
      assert Related(after, instances, e) <==> Related(before, instances, e) || Related(own, instances, e);
    }
  }

  method CompileRelation(relation: Relation, instances: seq<Instance>) returns (r: Result<set<Edge>, CompilationError>)
    ensures r.Ok? ==>
              (forall t :: t in relation.targets ==> t in Known(instances)) && Expands([relation], instances, r.value)
    ensures r.Err? <==> exists t :: t in relation.targets && t !in Known(instances)
  {
    var edges := {};
    var targets := relation.targets;
    for i := 0 to |targets|
      invariant forall t :: t in targets[..i] ==> t in Known(instances)
      invariant Expands([Relation(relation.source, targets[..i])], instances, edges)
    {
      if targets[i] !in Known(instances) {
        return Err(UnknownTarget);
      }
      var added := Cross(InstancesOf(instances, relation.source), InstancesOf(instances, targets[i]), Parent);
      CrossExpands(relation.source, targets[i], instances);
      assert targets[..i + 1] == targets[..i] + [targets[i]];
      TargetsExpand(relation.source, targets[..i], targets[i], instances, edges, added);
      edges := edges + added;
    }
    assert targets[..|targets|] == targets;
    assert Relation(relation.source, targets) == relation;
    r := Ok(edges);
  }

  lemma {:induction false} CrossExpands(source: string, target: string, instances: seq<Instance>)
    ensures Expands([Relation(source, [target])], instances,
              Cross(InstancesOf(instances, source), InstancesOf(instances, target), Parent))
  {
    var arrows := Declared([Relation(source, [target])]);
    assert arrows == {(source, target)};
  }

  lemma {:induction false} TargetsExpand(source: string, targets: seq<string>, target: string,
                                         instances: seq<Instance>, edges: set<Edge>, added: set<Edge>)
    requires Expands([Relation(source, targets)], instances, edges)
             && Expands([Relation(source, [target])], instances, added)
    ensures Expands([Relation(source, targets + [target])], instances, edges + added)
  {
    var before, own, after :=
      Declared([Relation(source, targets)]), Declared([Relation(source, [target])]),
          Declared([Relation(source, targets + [target])]);
    assert after == before + own;
    forall e
      ensures e in edges + added <==> Related(after, instances, e)
    {
      assert Related(after, instances, e) <==> Related(before, instances, e) || Related(own, instances, e);
    }
  }

  /** Joins every two instances that are peers, in both directions. */
  method CompilePeers(near: Option<set<set<string>>>, instances: seq<Instance>) returns (edges: set<Edge>)
    ensures IsPeering(near, instances, edges)
  {
    edges := {};
    for j := 0 to |instances|
      invariant IsPeering(near, instances[..j], edges)
    {
      var added := {};
      for i := 0 to j
        invariant forall e :: e in added <==> exists k :: 0 <= k < i && Joins(near, instances[k], instances[j], e)
      {
        if Near(near, instances[i], instances[j]) {
          added := added + {Edge(instances[i].id, instances[j].id, Peer), Edge(instances[j].id, instances[i].id, Peer)};
        }
      }
      edges := edges + added;
    }
    assert instances[..|instances|] == instances;
  }

  // ---------------------------------------------------------------- acceptance

  ghost predicate Lists(edges: seq<Edge>, all: set<Edge>) {
    && (forall e :: e in edges <==> e in all)
    && forall i, j :: 0 <= i < j < |edges| ==> edges[i] != edges[j]
  }

  /** Arrows carried along a function: if there is no cycle where they arrive, there is none where they start. */
  lemma {:induction false} CyclesMap(from: set<Arrow>, to: set<Arrow>, f: string -> string)
    requires forall a :: a in from ==> (f(a.0), f(a.1)) in to
    requires Acyclic(to)
    ensures Acyclic(from)
  {
    forall w
      ensures !IsCycle(from, w)
    {
      var image := seq(|w|, i requires 0 <= i < |w| => f(w[i]));
      if IsWalk(from, w) {
        forall i | 0 <= i < |w| - 1
          ensures (image[i], image[i + 1]) in to
        {
          assert (w[i], w[i + 1]) in from;
        }
        assert IsWalk(to, image);
        assert !IsCycle(to, image);
      }
    }
  }

  function DeploymentOf(instances: seq<Instance>, id: string): string {
    if instances == [] then ""
    else if instances[0].id == id then instances[0].deployment
    else DeploymentOf(instances[1..], id)
  }

  /** Some instance of a deployment. */
  function Representative(instances: seq<Instance>, deployment: string): string {
    if instances == [] then ""
    else if instances[0].deployment == deployment then instances[0].id
    else Representative(instances[1..], deployment)
  }

  lemma {:induction false} DeploymentOfInstance(instances: seq<Instance>, i: nat)
    requires i < |instances| && Distinct(Ids(instances))
    ensures DeploymentOf(instances, instances[i].id) == instances[i].deployment
    decreases |instances|
  {
    if i > 0 {
      assert Ids(instances)[0] != Ids(instances)[i];
      var rest := instances[1..];
      assert forall k :: 0 <= k < |rest| ==> Ids(rest)[k] == Ids(instances)[k + 1];
      DeploymentOfInstance(rest, i - 1);
    }
  }

  lemma {:induction false} RepresentativeIsInstance(instances: seq<Instance>, deployment: string)
    requires deployment in Known(instances)
    ensures exists i :: i in instances && i.deployment == deployment && i.id == Representative(instances, deployment)
    decreases |instances|
  {
    var i :| i in instances && i.deployment == deployment;
    if instances[0].deployment != deployment {
      assert i in instances[1..];
      RepresentativeIsInstance(instances[1..], deployment);
    }
  }

  /** Instances form a cycle exactly when their deployments do. */
  lemma {:induction false} ExpansionKeepsCycles(relations: seq<Relation>, instances: seq<Instance>, arrows: set<Arrow>)
    requires Distinct(Ids(instances)) && AllKnown(relations, Known(instances))
    requires forall s, t :: (s, t) in arrows <==> Related(Declared(relations), instances, Edge(s, t, Parent))
    ensures Acyclic(arrows) <==> Acyclic(Declared(relations))
  {
    var declared := Declared(relations);
    if Acyclic(declared) {
      forall a | a in arrows
        ensures (DeploymentOf(instances, a.0), DeploymentOf(instances, a.1)) in declared
      {
        assert (a.0, a.1) in arrows;
        var s, t :| s in instances && t in instances && (s.deployment, t.deployment) in declared
                    && Edge(a.0, a.1, Parent) == Edge(s.id, t.id, Parent);
        var i :| 0 <= i < |instances| && instances[i] == s;
        var j :| 0 <= j < |instances| && instances[j] == t;
        DeploymentOfInstance(instances, i);
        DeploymentOfInstance(instances, j);
      }
      CyclesMap(arrows, declared, id => DeploymentOf(instances, id));
    }
    if Acyclic(arrows) {
      forall a | a in declared
        ensures (Representative(instances, a.0), Representative(instances, a.1)) in arrows
      {
        RepresentativeIsInstance(instances, a.0);
        RepresentativeIsInstance(instances, a.1);
        assert Related(declared, instances, Edge(Representative(instances, a.0), Representative(instances, a.1),
               Parent));
      }
      CyclesMap(declared, arrows, deployment => Representative(instances, deployment));
    }
  }

  /** What every compiled edge satisfies, in every mode, apart from self edges of a cyclic hierarchy. */
  ghost predicate EdgeSound(spec: Spec, instances: seq<Instance>, e: Edge) {
    && Expected(spec.mode) == Some(e.relationship)
    && e.source in Ids(instances) && e.target in Ids(instances)
    && (spec.mode != Hierarchical ==> e.source != e.target)
  }

  lemma {:induction false} IdOf(instances: seq<Instance>, i: Instance)
    requires i in instances
    ensures i.id in Ids(instances)
  {
    var k :| 0 <= k < |instances| && instances[k] == i;
    assert Ids(instances)[k] == i.id;
  }

  lemma {:induction false} HubEdge(instances: seq<Instance>, hub: Instance, edges: set<Edge>, e: Edge)
    requires IsHub(instances, hub, edges) && e in edges
    ensures FromHub(instances, hub, e)
  {
  }

  lemma {:induction false} CompiledEdgesSound(spec: Spec, instances: seq<Instance>, edges: set<Edge>, e: Edge)
    requires Distinct(Ids(instances)) && Compiled(spec, instances, edges) && e in edges
    ensures EdgeSound(spec, instances, e)
  {
    match spec.mode
    case Independent =>
    case Centralized =>
      var hub :| hub in instances && IsHub(instances, hub, edges);
      IdOf(instances, hub);
      HubEdge(instances, hub, edges, e);
    case Hierarchical =>
      var s, t :| s in instances && t in instances && e == Edge(s.id, t.id, Parent);
      IdOf(instances, s);
      IdOf(instances, t);
    case Distributed =>
      assert Peers(spec.near, instances, e);
      var i, j :| 0 <= i < j < |instances| && Joins(spec.near, instances[i], instances[j], e);
      assert Ids(instances)[i] != Ids(instances)[j];
  }

  /** The plan a compilation produces: its edges in some fixed order. */
  function PlanOf(spec: Spec, instances: seq<Instance>, listed: seq<Edge>): Plan {
    Plan(Ids(instances), spec.mode, listed)
  }

  lemma {:induction false} ListedDistinct(spec: Spec, instances: seq<Instance>, edges: set<Edge>, listed: seq<Edge>)
    requires Distinct(Ids(instances)) && Compiled(spec, instances, edges) && Lists(listed, edges)
    ensures DistinctArrows(listed)
    ensures forall e :: e in listed ==> EdgeSound(spec, instances, e)
  {
    forall e | e in listed
      ensures EdgeSound(spec, instances, e)
    {
      CompiledEdgesSound(spec, instances, edges, e);
    }
    forall i, j | 0 <= i < j < |listed|
      ensures listed[i].Arrow() != listed[j].Arrow()
    {
      assert EdgeSound(spec, instances, listed[i]) && EdgeSound(spec, instances, listed[j]);
      assert listed[i] != listed[j];
    }
  }

  /**
   * A compiled plan is a valid coordination graph, except when it is a hierarchy whose
   * declared relation between deployments has a cycle.
   */
  lemma {:induction false} CompiledPlanValidIff(spec: Spec, instances: seq<Instance>, edges: set<Edge>,
                                                listed: seq<Edge>)
    requires Distinct(Ids(instances)) && Compiled(spec, instances, edges) && Lists(listed, edges)
    ensures ValidPlan(PlanOf(spec, instances, listed))
            <==> (spec.mode == Hierarchical ==> Acyclic(Declared(spec.relations)))
  {
    var plan := PlanOf(spec, instances, listed);
    ListedDistinct(spec, instances, edges, listed);
    match spec.mode
    case Independent =>
    case Centralized => HubFits(spec, instances, edges, listed);
    case Hierarchical => HierarchyFits(spec, instances, edges, listed);
    case Distributed => PeersFit(spec, instances, edges, listed);
  }

  lemma {:induction false} ListedArrows(edges: set<Edge>, listed: seq<Edge>, relationship: Relationship)
    requires Lists(listed, edges) && forall e :: e in edges ==> e.relationship == relationship
    ensures forall s, t :: (s, t) in Arrows(listed) <==> Edge(s, t, relationship) in edges
  {
    forall s, t
      ensures (s, t) in Arrows(listed) <==> Edge(s, t, relationship) in edges
    {
      if (s, t) in Arrows(listed) {
        var e :| e in listed && e.Arrow() == (s, t);
        assert e == Edge(s, t, relationship);
      }
      if Edge(s, t, relationship) in edges {
        assert Edge(s, t, relationship) in listed;
        assert Edge(s, t, relationship).Arrow() == (s, t);
      }
    }
  }

  lemma {:induction false} HubFits(spec: Spec, instances: seq<Instance>, edges: set<Edge>, listed: seq<Edge>)
    requires spec.mode == Centralized && Compiled(spec, instances, edges) && Lists(listed, edges)
    ensures ShapeFits(Centralized, Elements(Ids(instances)), Arrows(listed))
  {
    var hub :| hub in instances && IsHub(instances, hub, edges);
    IdOf(instances, hub);
    HubIsStar(instances, hub, edges, listed);
  }

  lemma {:induction false} HubIsStar(instances: seq<Instance>, hub: Instance, edges: set<Edge>, listed: seq<Edge>)
    requires IsHub(instances, hub, edges) && Lists(listed, edges)
    ensures Arrows(listed) == Star(hub.id, Elements(Ids(instances)))
  {
    ListedArrows(edges, listed, Coordinates);
    forall s, t
      ensures Edge(s, t, Coordinates) in edges <==> (s, t) in Star(hub.id, Elements(Ids(instances)))
    {
      if Edge(s, t, Coordinates) in edges {
        HubEdge(instances, hub, edges, Edge(s, t, Coordinates));
      }
    }
    assert forall a: Arrow :: a == (a.0, a.1);
  }

  lemma {:induction false} PeersFit(spec: Spec, instances: seq<Instance>, edges: set<Edge>, listed: seq<Edge>)
    requires spec.mode == Distributed && Compiled(spec, instances, edges) && Lists(listed, edges)
    ensures Symmetric(Arrows(listed))
  {
    ListedArrows(edges, listed, Peer);
    forall a | a in Arrows(listed)
      ensures (a.1, a.0) in Arrows(listed)
    {
      assert (a.0, a.1) in Arrows(listed);
      assert Peers(spec.near, instances, Edge(a.0, a.1, Peer));
      var i, j :| 0 <= i < j < |instances| && Joins(spec.near, instances[i], instances[j], Edge(a.0, a.1, Peer));
      assert Joins(spec.near, instances[i], instances[j], Edge(a.1, a.0, Peer));
      assert Peers(spec.near, instances, Edge(a.1, a.0, Peer));
    }
  }

  lemma {:induction false} HierarchyFits(spec: Spec, instances: seq<Instance>, edges: set<Edge>, listed: seq<Edge>)
    requires spec.mode == Hierarchical && Distinct(Ids(instances))
    requires Compiled(spec, instances, edges) && Lists(listed, edges) && DistinctArrows(listed)
    requires forall e :: e in listed ==> EdgeSound(spec, instances, e)
    ensures ValidPlan(PlanOf(spec, instances, listed)) <==> Acyclic(Declared(spec.relations))
  {
    ListedArrows(edges, listed, Parent);
    ExpansionKeepsCycles(spec.relations, instances, Arrows(listed));
    if Acyclic(Arrows(listed)) {
      forall e | e in listed
        ensures EdgeFits(PlanOf(spec, instances, listed), e)
      {
        assert EdgeSound(spec, instances, e);
        NoSelfEdge(listed, e);
      }
    }
  }

  lemma {:induction false} NoSelfEdge(listed: seq<Edge>, e: Edge)
    requires Acyclic(Arrows(listed)) && e in listed
    ensures e.source != e.target
  {
    assert e.Arrow() in Arrows(listed);
    assert !IsCycle(Arrows(listed), [e.source, e.target]);
  }

  /** Compiling a specification and building its graph fails only for unknown names and cyclic hierarchies. */
  method CompileAndBuild(spec: Spec, instances: seq<Instance>)
    returns (edges: Result<set<Edge>, CompilationError>, graph: Result<CoordinationGraph, GraphError>)
    requires Distinct(Ids(instances))
    ensures edges.Ok? ==> (graph.Ok? <==> (spec.mode == Hierarchical ==> Acyclic(Declared(spec.relations))))
    ensures edges.Ok? && graph.Ok? ==> graph.value.edges.Keys == set e | e in edges.value :: e.Arrow()
  {
    graph := Err(InvalidPlan);
    edges := Compile(spec, instances);
    if edges.Err? {
      return;
    }
    var listed := ListEdges(edges.value);
    graph := Build(PlanOf(spec, instances, listed));
    CompiledPlanValidIff(spec, instances, edges.value, listed);
  }

  method ListEdges(edges: set<Edge>) returns (listed: seq<Edge>)
    ensures Lists(listed, edges)
  {
    listed := [];
    var rest := edges;
    while rest != {}
      invariant rest <= edges && Lists(listed, edges - rest)
    {
      var e :| e in rest;
      listed := listed + [e];
      rest := rest - {e};
    }
  }
}
