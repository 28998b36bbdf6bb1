/**
 * What the order of a topology's links changes: mininet_ai/compiler/compiler.py,
 * `_resolve_links`.
 */
module LinkOrder {
  import opened Basics
  import opened Ports
  import opened Adapters
  import opened Links

  function Named(endpoints: seq<Endpoint>): seq<Endpoint> {
    if endpoints == [] then []
    else
      var last := endpoints[|endpoints| - 1];
      Named(endpoints[..|endpoints| - 1]) + if last.adapter.Some? then [last] else []
  }

  function Bare(endpoints: seq<Endpoint>): seq<Endpoint> {
    if endpoints == [] then []
    else
      var last := endpoints[|endpoints| - 1];
      Bare(endpoints[..|endpoints| - 1]) + if last.adapter.Some? then [] else [last]
  }

  lemma {:induction false} AttachableOne(table: Table, nodes: map<string, Resource>, before: seq<Endpoint>, e: Endpoint)
    ensures Attachable(table, nodes, before + [e])
            <==> Attachable(table, nodes, before) && Outcome(table, nodes, before, e).Ok?
  {
    var longer := before + [e];
    assert longer[..|before|] == before && longer[|before|] == e;
    forall i | 0 <= i < |before|
      ensures FitsAt(table, nodes, longer, i) <==> FitsAt(table, nodes, before, i)
    {
      assert longer[..i] == before[..i];
    }
    if Attachable(table, nodes, longer) {
      assert FitsAt(table, nodes, longer, |before|);
    }
  }

  lemma {:induction false} PartsSplit(less: seq<Endpoint>, last: Endpoint)
    ensures Named(less + [last]) == Named(less) + if last.adapter.Some? then [last] else []
    ensures Bare(less + [last]) == Bare(less) + if last.adapter.Some? then [] else [last]
  {
    assert (less + [last])[..|less|] == less;
  }

  lemma {:induction false} NamedPartUse(endpoints: seq<Endpoint>, node: string)
    ensures NamedBy(Named(endpoints)) == NamedBy(endpoints) && Unnamed(Named(endpoints), node) == 0
  {
    if endpoints != [] {
      var n := |endpoints| - 1;
      var less, last := endpoints[..n], endpoints[n];
      assert endpoints == less + [last];
      NamedPartUse(less, node);
      OneMoreEndpoint(less, last, node);
      OneMoreEndpoint(Named(less), last, node);
      assert Named(less) + [] == Named(less);
    }
  }

  lemma {:induction false} BarePartUse(endpoints: seq<Endpoint>, node: string)
    ensures Unnamed(Bare(endpoints), node) == Unnamed(endpoints, node)
  {
    if endpoints != [] {
      var n := |endpoints| - 1;
      BarePartUse(endpoints[..n], node);
      OneMoreEndpoint(Bare(endpoints[..n]), endpoints[n], node);
      assert Bare(endpoints[..n]) + [] == Bare(endpoints[..n]);
    }
  }

  /** A named endpoint that fits among others also fits among the named ones alone. */
  lemma {:induction false} NamedAlone(table: Table, nodes: map<string, Resource>, before: seq<Endpoint>,
                                      named: seq<Endpoint>, e: Endpoint)
    requires e.adapter.Some? && Outcome(table, nodes, before, e).Ok?
    requires NamedBy(named) == NamedBy(before) && Unnamed(named, e.node) == 0
    ensures Outcome(table, nodes, named, e).Ok?
  {
  }

  lemma {:induction false} NamedPart(table: Table, nodes: map<string, Resource>, endpoints: seq<Endpoint>)
    requires Attachable(table, nodes, endpoints)
    ensures Attachable(table, nodes, Named(endpoints))
  {
    if endpoints != [] {
      var n := |endpoints| - 1;
      var less, last := endpoints[..n], endpoints[n];
      assert endpoints == less + [last];
      AttachableOne(table, nodes, less, last);
      NamedPart(table, nodes, less);
      PartsSplit(less, last);
      if last.adapter.Some? {
        NamedPartUse(less, last.node);
        NamedAlone(table, nodes, less, Named(less), last);
        AttachableOne(table, nodes, Named(less), last);
      } else {
        assert Named(endpoints) == Named(less);
      }
    }
  }

  ghost predicate Free(table: Table, nodes: map<string, Resource>, node: string, extra: nat) {
    AdapterName(node, FreshAt(table, nodes, node, extra + 1)[extra]) !in table.reserved
  }

  ghost predicate CanHold(nodes: map<string, Resource>, node: string) {
    node in nodes && !nodes[node].OtherResource?
  }

  lemma {:induction false} ExtraGrows(table: Table, nodes: map<string, Resource>, before: seq<Endpoint>, e: Endpoint,
                                      node: string)
    requires TableSound(table) && Outcome(table, nodes, before, e).Ok?
    ensures ExtraAt(table, before + [e], node) == ExtraAt(table, before, node)
            || (ExtraAt(table, before + [e], node) == ExtraAt(table, before, node) + 1
                && Free(table, nodes, node, ExtraAt(table, before, node)))
  {
    if e.adapter.Some? {
      if e.adapter.value in UpTo(Spare(Owned(table, node), NamedBy(before)), Unnamed(before, node)) {
        UpToMember(Owned(table, node), NamedBy(before), Unnamed(before, node), e.adapter.value);
        OneOwner(table, e.adapter.value, node);
        assert false;
      }
      NamedUse(table, before, e, node);
    } else if e.node != node {
      ElsewhereSame(table, before, e, node);
    } else if Unnamed(before, node) < |Spare(Owned(table, node), NamedBy(before))| {
      SpareUse(table, before, e);
    } else {
      AutoUse(table, before, e);
    }
  }

  /** If all endpoints can be attached, the names of all automatic adapters of a node are free. */
  lemma {:induction false} AutosFree(table: Table, nodes: map<string, Resource>, endpoints: seq<Endpoint>,
                                     node: string, x: nat)
    requires TableSound(table) && Attachable(table, nodes, endpoints) && x < ExtraAt(table, endpoints, node)
    ensures Free(table, nodes, node, x)
  {
    if endpoints != [] {
      var n := |endpoints| - 1;
      assert endpoints == endpoints[..n] + [endpoints[n]];
      AttachableOne(table, nodes, endpoints[..n], endpoints[n]);
      ExtraGrows(table, nodes, endpoints[..n], endpoints[n], node);
      if x < ExtraAt(table, endpoints[..n], node) {
        AutosFree(table, nodes, endpoints[..n], node, x);
      }
    }
  }

  /** Endpoints without a name, after endpoints with one. */
  lemma {:induction false} BareUse(named: seq<Endpoint>, bare: seq<Endpoint>, node: string)
    requires Unnamed(named, node) == 0 && forall e :: e in bare ==> e.adapter.None?
    ensures NamedBy(named + bare) == NamedBy(named) && Unnamed(named + bare, node) == Unnamed(bare, node)
  {
    if bare == [] {
      assert named + bare == named;
    } else {
      var n := |bare| - 1;
      assert named + bare == (named + bare[..n]) + [bare[n]] && bare[n] in bare;
      BareUse(named, bare[..n], node);
      OneMoreEndpoint(named + bare[..n], bare[n], node);
    }
  }

  /** Enough automatic names are free for this many endpoints without a name at a node. */
  ghost predicate Supplied(table: Table, nodes: map<string, Resource>, named: set<string>, node: string, count: nat) {
    forall x: nat :: x < Beyond(Spare(Owned(table, node), named), count) ==> Free(table, nodes, node, x)
  }

  lemma {:induction false} BareOne(table: Table, nodes: map<string, Resource>, before: seq<Endpoint>, e: Endpoint)
    requires e.adapter.None? && CanHold(nodes, e.node)
    requires Supplied(table, nodes, NamedBy(before), e.node, Unnamed(before, e.node) + 1)
    ensures Outcome(table, nodes, before, e).Ok?
  {
    var spare, count := Spare(Owned(table, e.node), NamedBy(before)), Unnamed(before, e.node);
    if count >= |spare| {
      assert Free(table, nodes, e.node, count - |spare|);
    }
  }

  lemma {:induction false} BarePart(table: Table, nodes: map<string, Resource>, named: seq<Endpoint>,
                                    bare: seq<Endpoint>)
    requires Attachable(table, nodes, named) && forall node :: Unnamed(named, node) == 0
    requires forall e :: e in bare ==> e.adapter.None? && CanHold(nodes, e.node)
    requires forall node :: Supplied(table, nodes, NamedBy(named), node, Unnamed(bare, node))
    ensures Attachable(table, nodes, named + bare)
  {
    if bare == [] {
      assert named + bare == named;
    } else {
      var n := |bare| - 1;
      var less, last := bare[..n], bare[n];
      assert bare == less + [last] && named + bare == (named + less) + [last] && last in bare;
      forall node
        ensures Supplied(table, nodes, NamedBy(named), node, Unnamed(less, node))
      {
        SupplyLess(table, nodes, named, less, last, node);
      }
      BarePart(table, nodes, named, less);
      BareUse(named, less, last.node);
      OneMoreEndpoint(less, last, last.node);
      BareOne(table, nodes, named + less, last);
      AttachableOne(table, nodes, named + less, last);
    }
  }

  lemma {:induction false} SupplyLess(table: Table, nodes: map<string, Resource>, named: seq<Endpoint>,
                                      less: seq<Endpoint>, last: Endpoint,
                                      node: string)
    requires Supplied(table, nodes, NamedBy(named), node, Unnamed(less + [last], node))
    ensures Supplied(table, nodes, NamedBy(named), node, Unnamed(less, node))
  {
    OneMoreEndpoint(less, last, node);
  }

  lemma {:induction false} BareFits(table: Table, nodes: map<string, Resource>, endpoints: seq<Endpoint>)
    requires Attachable(table, nodes, endpoints)
    ensures forall e :: e in Bare(endpoints) ==> e.adapter.None? && CanHold(nodes, e.node)
  {
    if endpoints != [] {
      var n := |endpoints| - 1;
      assert endpoints == endpoints[..n] + [endpoints[n]];
      AttachableOne(table, nodes, endpoints[..n], endpoints[n]);
      BareFits(table, nodes, endpoints[..n]);
    }
  }

  /** Listing the endpoints that name an adapter first never hurts: if any order can be attached, this one can. */
  lemma {:induction false} NamedFirstNeverWorse(table: Table, nodes: map<string, Resource>, endpoints: seq<Endpoint>)
    requires TableSound(table) && Attachable(table, nodes, endpoints)
    ensures Attachable(table, nodes, Named(endpoints) + Bare(endpoints))
  {
    NamedPart(table, nodes, endpoints);
    BareFits(table, nodes, endpoints);
    forall node
      ensures Unnamed(Named(endpoints), node) == 0
      ensures Supplied(table, nodes, NamedBy(Named(endpoints)), node, Unnamed(Bare(endpoints), node))
    {
      NamedPartUse(endpoints, node);
      BarePartUse(endpoints, node);
      forall x: nat | x < ExtraAt(table, endpoints, node)
        ensures Free(table, nodes, node, x)
      {
        AutosFree(table, nodes, endpoints, node, x);
      }
    }
    BarePart(table, nodes, Named(endpoints), Bare(endpoints));
  }

  lemma {:induction false} NothingNamed(owned: seq<string>)
    ensures Spare(owned, {}) == owned
  {
    if owned != [] {
      NothingNamed(owned[..|owned| - 1]);
    }
  }

  lemma {:induction false} FirstBare(table: Table, nodes: map<string, Resource>, node: string)
    requires TableSound(table) && CanHold(nodes, node) && Owned(table, node) != []
    ensures Outcome(table, nodes, [], Endpoint(node, None)) == Ok(Owned(table, node)[0])
    ensures Outcome(table, nodes, [Endpoint(node, None)], Endpoint(node, Some(Owned(table, node)[0]))) == Err(UsedTwice)
  {
    OneOwner(table, Owned(table, node)[0], node);
    NothingNamed(Owned(table, node));
    assert NamedBy([]) == {} && NamedBy([Endpoint(node, None)]) == {};
    assert [Endpoint(node, None)][..0] == [];
    assert UpTo(Owned(table, node), 1)[0] == Owned(table, node)[0];
  }

  lemma {:induction false} FirstNamed(table: Table, nodes: map<string, Resource>, node: string)
    requires TableSound(table) && CanHold(nodes, node) && Owned(table, node) != []
    ensures Outcome(table, nodes, [], Endpoint(node, Some(Owned(table, node)[0]))).Ok?
    ensures Outcome(table, nodes, [Endpoint(node, Some(Owned(table, node)[0]))], Endpoint(node, None)).Ok?
            <==> |Owned(table, node)| > 1
                 || AdapterName(node, LeastUnused(FirstAt(nodes, node), UsedNumbers(table, node))) !in table.reserved
  {
    var owned := Owned(table, node);
    var named := Endpoint(node, Some(owned[0]));
    OneOwner(table, owned[0], node);
    OwnedDistinct(table, node);
    NothingNamed(owned);
    assert NamedBy([]) == {} && NamedBy([named]) == {} + {owned[0]};
    assert [named][..0] == [];
    var p := SpareWithout(owned, {}, owned[0]);
    assert |Spare(owned, NamedBy([named]))| == |owned| - 1;
    FirstFresh(table, nodes, node);
  }

  lemma {:induction false} FirstFresh(table: Table, nodes: map<string, Resource>, node: string)
    ensures FreshAt(table, nodes, node, 1)[0] == LeastUnused(FirstAt(nodes, node), UsedNumbers(table, node))
  {
    assert UsedNumbers(table, node) + Elements<nat>([]) == UsedNumbers(table, node);
    assert FreshAt(table, nodes, node, 0) == [];
  }

  /**
   * The order of links matters: an endpoint without a name takes the node's first
   * adapter, so a later one that names it fails; the other way round both are attached,
   * unless an automatic adapter is needed and its name is in use.
   */
  lemma {:induction false} OrderMatters(table: Table, nodes: map<string, Resource>, node: string)
    requires TableSound(table) && CanHold(nodes, node) && Owned(table, node) != []
    ensures var owned, bare := Owned(table, node), Endpoint(node, None);
            var named := Endpoint(node, Some(owned[0]));
            && Outcome(table, nodes, [], bare) == Ok(owned[0]) && Outcome(table, nodes, [bare], named) == Err(UsedTwice)
            && !Attachable(table, nodes, [bare, named])
            && (Attachable(table, nodes, [named, bare]) <==>
                  |owned| > 1 || AdapterName(node,
                      LeastUnused(FirstAt(nodes, node), UsedNumbers(table, node))) !in table.reserved)
  {
    var bare, named := Endpoint(node, None), Endpoint(node, Some(Owned(table, node)[0]));
    FirstBare(table, nodes, node);
    FirstNamed(table, nodes, node);
    assert [] + [named] == [named] && [bare] + [named] == [bare, named] && [named] + [bare] == [named, bare];
    AttachableOne(table, nodes, [], named);
    AttachableOne(table, nodes, [bare], named);
    AttachableOne(table, nodes, [named], bare);
  }
}
