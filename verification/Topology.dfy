/**
 * The adapters and link endpoints of a whole topology: mininet_ai/compiler/compiler.py,
 * `_build_resources`, with the parent and controller checks left out.
 */
module Topology {
  import opened Basics
  import opened Ports
  import opened Adapters
  import opened Links

  datatype Link = Link(name: string, first: Endpoint, second: Endpoint)

  datatype BuildError = NameTaken | Undeclared(declaration: DeclareError) | Unattached(link: LinkError)

  function EndpointsOf(links: seq<Link>): seq<Endpoint> {
    if links == [] then []
    else EndpointsOf(links[..|links| - 1]) + [links[|links| - 1].first, links[|links| - 1].second]
  }

  function LinkNames(links: seq<Link>): (names: seq<string>)
    ensures |names| == |links|
  {
    seq(|links|, i requires 0 <= i < |links| => links[i].name)
  }

  function NodesOf(resources: seq<Resource>): map<string, Resource> {
    if resources == [] then map[]
    else NodesOf(resources[..|resources| - 1])[resources[|resources| - 1].name := resources[|resources| - 1]]
  }

  /** No two resources or links share a name. */
  ghost predicate NamesDiffer(resources: seq<Resource>, links: seq<Link>) {
    && Distinct(ResourceNames(resources)) && Distinct(LinkNames(links))
    && forall l :: l in links ==> l.name !in ResourceNames(resources)
  }

  lemma {:induction false} NodesAreNamed(resources: seq<Resource>)
    ensures NodesOf(resources).Keys == Elements(ResourceNames(resources))
  {
    if resources != [] {
      var n := |resources| - 1;
      NodesAreNamed(resources[..n]);
      assert ResourceNames(resources) == ResourceNames(resources[..n]) + [resources[n].name];
    }
  }

  lemma {:induction false} OneMoreDistinct(names: seq<string>, i: nat)
    requires i < |names| && Distinct(names[..i])
    ensures Distinct(names[..i + 1]) <==> names[i] !in names[..i]
    ensures names[i] in names[..i] ==> !Distinct(names)
  {
    if names[i] in names[..i] {
      var k :| 0 <= k < i && names[..i][k] == names[i];
      assert names[k] == names[i] && names[..i + 1][k] == names[..i + 1][i];
    }
  }

  method CollectNodes(resources: seq<Resource>) returns (r: Result<map<string, Resource>, BuildError>)
    ensures r == if Distinct(ResourceNames(resources)) then Ok(NodesOf(resources)) else Err(NameTaken)
  {
    var nodes: map<string, Resource> := map[];
    ghost var names := ResourceNames(resources);
    for i := 0 to |resources|
      invariant nodes == NodesOf(resources[..i]) && Distinct(names[..i])
    {
      NodesAreNamed(resources[..i]);
      assert ResourceNames(resources[..i]) == names[..i];
      OneMoreDistinct(names, i);
      if resources[i].name in nodes {
        return Err(NameTaken);
      }
      assert resources[..i + 1][..i] == resources[..i];
      nodes := nodes[resources[i].name := resources[i]];
    }
    assert resources[..|resources|] == resources && names[..|resources|] == names;
    r := Ok(nodes);
  }

  ghost predicate LinksNew(links: seq<Link>, reserved: set<string>) {
    Distinct(LinkNames(links)) && forall l :: l in links ==> l.name !in reserved
  }

  method ReserveLinks(links: seq<Link>, reserved: set<string>) returns (r: Result<set<string>, BuildError>)
    ensures r == if LinksNew(links, reserved) then Ok(reserved + Elements(LinkNames(links))) else Err(NameTaken)
  {
    var all := reserved;
    ghost var names := LinkNames(links);
    for i := 0 to |links|
      invariant all == reserved + Elements(names[..i]) && Distinct(names[..i])
      invariant forall k :: 0 <= k < i ==> links[k].name !in reserved
    {
      OneMoreDistinct(names, i);
      if links[i].name in all {
        assert links[i] in links;
        return Err(NameTaken);
      }
      assert Elements(names[..i + 1]) == Elements(names[..i]) + {names[i]};
      all := all + {links[i].name};
    }
    assert names[..|links|] == names;
    r := Ok(all);
  }

  /** When the adapters of a topology can be declared and its links attached. */
  ghost predicate Buildable(resources: seq<Resource>, links: seq<Link>) {
    var reserved := Elements(ResourceNames(resources)) + Elements(LinkNames(links));
    && NamesDiffer(resources, links) && Declarable(resources, reserved)
    && Attachable(Declared(resources, reserved), NodesOf(resources), EndpointsOf(links))
  }

  /**
   * Declares all adapters and attaches all links. It fails exactly when the topology is
   * not buildable; otherwise the numbers of each owner's adapters are distinct, every
   * declared adapter is kept, and every endpoint has an adapter of its own node that no
   * other endpoint has.
   */
  method AttachLinks(resources: seq<Resource>, links: seq<Link>) returns (r: Result<(Table, seq<string>), BuildError>)
    ensures r.Ok? <==> Buildable(resources, links)
    ensures r.Ok? ==>
              var reserved := Elements(ResourceNames(resources)) + Elements(LinkNames(links));
              && TableSound(r.value.0) && Keeps(Declared(resources, reserved), r.value.0)
              && DeclaresAll(Declared(resources, reserved), resources)
              && |r.value.1| == |EndpointsOf(links)| && Distinct(r.value.1)
                   && OwnersFit(r.value.0, EndpointsOf(links), r.value.1)
  {
    var nodes := CollectNodes(resources);
    if nodes.Err? {
      return Err(nodes.error);
    }
    NodesAreNamed(resources);
    var reserved := ReserveLinks(links, nodes.value.Keys);
    if reserved.Err? {
      return Err(reserved.error);
    }
    var table := DeclareAdapters(resources, reserved.value);
    if table.Err? {
      return Err(Undeclared(table.error));
    }
    var names, after := ResolveLinks(table.value, nodes.value, EndpointsOf(links));
    if names.Err? {
      return Err(Unattached(names.error));
    }
    r := Ok((after, names.value));
  }
}
