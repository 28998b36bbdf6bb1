/**
 * Which adapter each link endpoint gets: mininet_ai/compiler/compiler.py,
 * `_resolve_links` and `_create_automatic_adapter`.
 */
module Links {
  import opened Basics
  import opened Ports
  import opened Adapters

  datatype Endpoint = Endpoint(node: string, adapter: Option<string>)

  datatype LinkError = UnknownNode | NotAttachable | UnknownAdapter | WrongOwner | NameInUse | UsedTwice

  // ------------------------------------------------------------------- one endpoint

  /** Automatic adapters of a host are numbered from zero, those of a switch from one. */
  function FirstNumber(resource: Resource): nat {
    if resource.HostResource? then 0 else 1
  }

  ghost function Automatic(table: Table, resource: Resource, node: string): Draft {
    var number := LeastUnused(FirstNumber(resource), UsedNumbers(table, node));
    Draft(AdapterName(node, number), node, number)
  }

  /** The first adapter in the list that no link uses yet. */
  ghost function FirstFree(owned: seq<string>, used: set<string>): Option<string> {
    if owned == [] then None
    else
      var first := FirstFree(owned[..|owned| - 1], used);
      if first.None? && owned[|owned| - 1] !in used then Some(owned[|owned| - 1]) else first
  }

  /** The adapter of one endpoint in a given state, and the table after it. */
  ghost function Settle(table: Table, nodes: map<string, Resource>, used: set<string>, e: Endpoint)
    : Result<(string, Table), LinkError>
  {
    if e.node !in nodes then Err(UnknownNode)
    else if nodes[e.node].OtherResource? then Err(NotAttachable)
    else
      match e.adapter
      case Some(name) =>
        if name !in table.drafts then Err(UnknownAdapter)
        else if table.drafts[name].owner != e.node then Err(WrongOwner)
        else if name in used then Err(UsedTwice) else Ok((name, table))
      case None =>
        var free := FirstFree(Owned(table, e.node), used);
        if free.Some? then Ok((free.value, table))
        else
          var draft := Automatic(table, nodes[e.node], e.node);
          if draft.name in table.reserved then Err(NameInUse) else Ok((draft.name, Register(table, draft)))
  }

  /** Creates the adapter an endpoint needs; fails exactly when the name of its node's least unused number is in use. */
  method CreateAutomatic(table: Table, resource: Resource, node: string) returns (r: Result<Draft, LinkError>)
    requires TableSound(table)
    ensures var number := LeastUnused(FirstNumber(resource), UsedNumbers(table, node));
            && (r.Err? <==> AdapterName(node, number) in table.reserved)
            && (r.Ok? ==> r.value == Draft(AdapterName(node, number), node, number))
    ensures r.Err? ==> r.error == NameInUse
    ensures r.Ok? ==> TableSound(Register(table, r.value))
  {
    var number := NextUnused(FirstNumber(resource), UsedNumbers(table, node));
    var name := AdapterName(node, number);
    if name in table.reserved {
      return Err(NameInUse);
    }
    var draft := Draft(name, node, number);
    RegisterKeepsSound(table, draft);
    r := Ok(draft);
  }

  lemma {:induction false} FirstFreeAt(owned: seq<string>, used: set<string>, i: nat)
    requires i < |owned| && owned[i] !in used && forall k :: 0 <= k < i ==> owned[k] in used
    ensures FirstFree(owned, used) == Some(owned[i])
  {
    var n := |owned| - 1;
    if i == n {
      NoneFree(owned[..n], used);
    } else {
      FirstFreeAt(owned[..n], used, i);
    }
  }

  lemma {:induction false} NoneFree(owned: seq<string>, used: set<string>)
    requires forall name :: name in owned ==> name in used
    ensures FirstFree(owned, used) == None
  {
    if owned != [] {
      NoneFree(owned[..|owned| - 1], used);
    }
  }

  method FirstUnused(table: Table, node: string, used: set<string>) returns (adapter: Option<string>)
    ensures adapter == FirstFree(Owned(table, node), used)
  {
    var owned := Owned(table, node);
    for i := 0 to |owned|
      invariant forall k :: 0 <= k < i ==> owned[k] in used
    {
      if owned[i] !in used {
        FirstFreeAt(owned, used, i);
        return Some(owned[i]);
      }
    }
    NoneFree(owned, used);
    adapter := None;
  }

  lemma {:induction false} FreeIsFree(owned: seq<string>, used: set<string>)
    ensures var free := FirstFree(owned, used); free.Some? ==> free.value in owned && free.value !in used
  {
    if owned != [] {
      FreeIsFree(owned[..|owned| - 1], used);
    }
  }

  /** The adapter of one endpoint, created if its node has none left. */
  method ResolveEndpoint(table: Table, nodes: map<string, Resource>, used: set<string>, e: Endpoint)
    returns (r: Result<string, LinkError>, after: Table)
    requires TableSound(table) && used <= table.reserved
    ensures match Settle(table, nodes, used, e)
            case Ok(settled) => r == Ok(settled.0) && after == settled.1
            case Err(error) => r == Err(error) && after == table
  {
    after := table;
    if e.node !in nodes {
      return Err(UnknownNode), table;
    }
    if nodes[e.node].OtherResource? {
      return Err(NotAttachable), table;
    }
    var name: string;
    if e.adapter.Some? {
      name := e.adapter.value;
      if name !in table.drafts {
        return Err(UnknownAdapter), table;
      }
      if table.drafts[name].owner != e.node {
        return Err(WrongOwner), table;
      }
    } else {
      var free := FirstUnused(table, e.node, used);
      FreeIsFree(Owned(table, e.node), used);
      if free.Some? {
        name := free.value;
      } else {
        var draft := CreateAutomatic(table, nodes[e.node], e.node);
        if draft.Err? {
          return Err(draft.error), table;
        }
        name, after := draft.value.name, Register(table, draft.value);
      }
    }
    if name in used {
      return Err(UsedTwice), after;
    }
    r := Ok(name);
  }

  // ---------------------------------------------------- which adapter, in closed form

  function NamedBy(endpoints: seq<Endpoint>): set<string> {
    set e | e in endpoints && e.adapter.Some? :: e.adapter.value
  }

  /** How many endpoints at this node name no adapter. */
  function Unnamed(endpoints: seq<Endpoint>, node: string): nat {
    if endpoints == [] then 0
    else
      var last := endpoints[|endpoints| - 1];
      Unnamed(endpoints[..|endpoints| - 1], node) + if last.node == node && last.adapter.None? then 1 else 0
  }

  /** The listed adapters that are not named. */
  function Spare(owned: seq<string>, named: set<string>): seq<string> {
    if owned == [] then []
    else
      var last := owned[|owned| - 1];
      Spare(owned[..|owned| - 1], named) + if last in named then [] else [last]
  }

  function UpTo(names: seq<string>, count: nat): seq<string> {
    if count < |names| then names[..count] else names
  }

  function Beyond(names: seq<string>, count: nat): nat {
    if count < |names| then 0 else count - |names|
  }

  function FirstAt(nodes: map<string, Resource>, node: string): nat {
    if node in nodes then FirstNumber(nodes[node]) else 1
  }

  /** The numbers that automatic adapters of a node get, one after the other. */
  ghost function Fresh(used: set<nat>, first: nat, count: nat): (numbers: seq<nat>)
    ensures |numbers| == count
  {
    if count == 0 then []
    else
      var before := Fresh(used, first, count - 1);
      before + [LeastUnused(first, used + Elements(before))]
  }

  ghost function FreshAt(table: Table, nodes: map<string, Resource>, node: string, count: nat): seq<nat> {
    Fresh(UsedNumbers(table, node), FirstAt(nodes, node), count)
  }

  /**
   * The adapter of an endpoint, from the declared table and the endpoints before it alone:
   * a named one must be declared for the node, named by no earlier endpoint, and beyond
   * the spare ones that earlier endpoints without a name have used up; one without a name
   * gets the next spare one, or an automatic one whose name must be free.
   */
  ghost function Outcome(table: Table, nodes: map<string, Resource>, before: seq<Endpoint>, e: Endpoint)
    : Result<string, LinkError>
  {
    if e.node !in nodes then Err(UnknownNode)
    else if nodes[e.node].OtherResource? then Err(NotAttachable)
    else
      var spare, count := Spare(Owned(table, e.node), NamedBy(before)), Unnamed(before, e.node);
      match e.adapter
      case Some(name) =>
        if name !in table.drafts then Err(UnknownAdapter)
        else if table.drafts[name].owner != e.node then Err(WrongOwner)
        else if name in NamedBy(before) || name in UpTo(spare, count) then Err(UsedTwice) else Ok(name)
      case None =>
        if count < |spare| then Ok(spare[count])
        else
          var extra := Beyond(spare, count);
          var name := AdapterName(e.node, FreshAt(table, nodes, e.node, extra + 1)[extra]);
          if name in table.reserved then Err(NameInUse) else Ok(name)
  }

  // ------------------------------------------------------------------ spare adapters

  lemma {:induction false} SpareMember(owned: seq<string>, named: set<string>, name: string)
    ensures name in Spare(owned, named) <==> name in owned && name !in named
  {
    if owned != [] {
      SpareMember(owned[..|owned| - 1], named, name);
      assert owned == owned[..|owned| - 1] + [owned[|owned| - 1]];
    }
  }

  /** The place of a spare adapter: before it, the list has exactly the earlier spare ones. */
  lemma {:induction false} SpareAt(owned: seq<string>, named: set<string>, m: nat) returns (i: nat)
    requires m < |Spare(owned, named)|
    ensures i < |owned| && owned[i] == Spare(owned, named)[m] && Spare(owned[..i], named) == Spare(owned, named)[..m]
  {
    var n := |owned| - 1;
    var less := Spare(owned[..n], named);
    if m < |less| {
      i := SpareAt(owned[..n], named, m);
      assert owned[..n][..i] == owned[..i];
      assert less[..m] == Spare(owned, named)[..m];
    } else {
      i := n;
      assert Spare(owned, named)[..m] == less;
    }
  }

  /** With the spare ones up to a count in use, the next free adapter is the next spare one. */
  lemma {:induction false} FreeIsSpare(owned: seq<string>, more: seq<string>, named: set<string>, used: set<string>,
                                       m: nat)
    requires Distinct(owned)
    requires forall name :: name in owned ==> (name in used <==> name in named || name in UpTo(Spare(owned, named), m))
    requires forall name :: name in more ==> name in used
    ensures var spare := Spare(owned, named);
            FirstFree(owned + more, used) == if m < |spare| then Some(spare[m]) else None
  {
    var spare := Spare(owned, named);
    if m < |spare| {
      var i := SpareAt(owned, named, m);
      forall k | 0 <= k < i
        ensures owned[k] in used && owned[k] != owned[i]
      {
        SpareMember(owned[..i], named, owned[k]);
        assert owned[k] in owned[..i];
      }
      SpareMember(owned, named, owned[i]);
      SpareMember(owned[..i], named, owned[i]);
      assert owned[i] !in spare[..m];
      FirstFreeAt(owned + more, used, i);
    } else {
      forall name | name in owned + more
        ensures name in used
      {
        SpareMember(owned, named, name);
      }
      NoneFree(owned + more, used);
    }
  }

  lemma {:induction false} SpareSame(owned: seq<string>, named: set<string>, name: string)
    requires name !in owned
    ensures Spare(owned, named + {name}) == Spare(owned, named)
  {
    if owned != [] {
      SpareSame(owned[..|owned| - 1], named, name);
      assert owned[|owned| - 1] in owned;
    }
  }

  /** Naming a spare adapter takes just that one out of the spare ones. */
  lemma {:induction false} SpareWithout(owned: seq<string>, named: set<string>, name: string) returns (p: nat)
    requires Distinct(owned) && name in owned && name !in named
    ensures var spare := Spare(owned, named);
            p < |spare| && spare[p] == name && Spare(owned, named + {name}) == spare[..p] + spare[p + 1..]
  {
    var n := |owned| - 1;
    assert owned == owned[..n] + [owned[n]];
    var less := Spare(owned[..n], named);
    if owned[n] == name {
      p := |less|;
      SpareSame(owned[..n], named, name);
    } else {
      p := SpareWithout(owned[..n], named, name);
      var spare := Spare(owned, named);
      assert spare[..p] == less[..p] && spare[p + 1..] == less[p + 1..] + spare[|less|..];
    }
  }

  /** Naming an adapter beyond the spare ones in use changes neither these nor the need for more. */
  lemma {:induction false} NamingKeepsUse(owned: seq<string>, named: set<string>, name: string, m: nat)
    requires Distinct(owned) && name !in named && name !in UpTo(Spare(owned, named), m)
    ensures UpTo(Spare(owned, named + {name}), m) == UpTo(Spare(owned, named), m)
    ensures Beyond(Spare(owned, named + {name}), m) == Beyond(Spare(owned, named), m)
  {
    if name in owned {
      var p := SpareWithout(owned, named, name);
      var spare := Spare(owned, named);
      assert forall k :: 0 <= k < m && k < |spare| ==> spare[k] in UpTo(spare, m);
    } else {
      SpareSame(owned, named, name);
    }
  }

  lemma {:induction false} FreshNew(used: set<nat>, first: nat, count: nat)
    ensures var numbers := Fresh(used, first, count + 1);
            numbers[..count] == Fresh(used, first, count) && numbers[count] !in used + Elements(numbers[..count])
  {
  }

  // ------------------------------------------------------------- the state reached

  ghost function ExtraAt(table: Table, before: seq<Endpoint>, node: string): nat {
    Beyond(Spare(Owned(table, node), NamedBy(before)), Unnamed(before, node))
  }

  function AutoNames(node: string, numbers: seq<nat>): (names: seq<string>)
    ensures |names| == |numbers|
  {
    seq(|numbers|, i requires 0 <= i < |numbers| => AdapterName(node, numbers[i]))
  }

  ghost predicate InUse(table: Table, before: seq<Endpoint>, node: string, name: string) {
    || name !in Owned(table, node)
    || name in NamedBy(before)
    || name in UpTo(Spare(Owned(table, node), NamedBy(before)), Unnamed(before, node))
  }

  /** One node's adapters: the declared ones, then this many automatic ones. */
  ghost predicate ListsAt(table: Table, nodes: map<string, Resource>, now: Table, node: string, extra: nat) {
    var numbers := FreshAt(table, nodes, node, extra);
    && Owned(now, node) == Owned(table, node) + AutoNames(node, numbers)
    && UsedNumbers(now, node) == UsedNumbers(table, node) + Elements(numbers)
    && forall n :: AdapterName(node, n) in now.reserved <==> AdapterName(node, n) in table.reserved || n in numbers
  }

  ghost predicate UsesAt(table: Table, before: seq<Endpoint>, now: Table, used: set<string>, node: string) {
    forall name :: name in Owned(now, node) ==> (name in used <==> InUse(table, before, node, name))
  }

  ghost predicate ReachedAt(table: Table, nodes: map<string, Resource>, before: seq<Endpoint>, now: Table,
                            used: set<string>,
                            node: string)
  {
    ListsAt(table, nodes, now, node, ExtraAt(table, before, node)) && UsesAt(table, before, now, used, node)
  }

  ghost predicate Reached(table: Table, nodes: map<string, Resource>, before: seq<Endpoint>, now: Table,
                          used: set<string>)
  {
    && TableSound(now) && used <= now.drafts.Keys && Keeps(table, now)
    && forall node :: ReachedAt(table, nodes, before, now, used, node)
  }

  lemma {:induction false} ReachedFirst(table: Table, nodes: map<string, Resource>)
    requires TableSound(table)
    ensures Reached(table, nodes, [], table, {})
  {
    forall node
      ensures ReachedAt(table, nodes, [], table, {}, node)
    {
      assert FreshAt(table, nodes, node, 0) == [];
    }
  }

  lemma {:induction false} OwnedDistinct(table: Table, node: string)
    requires TableSound(table)
    ensures Distinct(Owned(table, node))
  {
    assert OwnerSound(table, node);
  }

  lemma {:induction false} OneMoreEndpoint(before: seq<Endpoint>, e: Endpoint, node: string)
    ensures NamedBy(before + [e]) == if e.adapter.Some? then NamedBy(before) + {e.adapter.value} else NamedBy(before)
    ensures Unnamed(before + [e], node) == Unnamed(before, node) + if e.node == node && e.adapter.None? then 1 else 0
  {
    assert (before + [e])[..|before|] == before;
    assert forall x :: x in before + [e] <==> x in before || x == e;
  }

  /** An adapter is listed for its owner only. */
  lemma {:induction false} OneOwner(table: Table, name: string, node: string)
    requires TableSound(table) && name in Owned(table, node)
    ensures name in table.drafts && table.drafts[name].owner == node
  {
    assert OwnerSound(table, node);
  }

  lemma {:induction false} DeclaredOwned(table: Table, name: string)
    requires TableSound(table) && name in table.drafts
    ensures name in Owned(table, table.drafts[name].owner)
  {
    assert DraftSound(table, name);
  }

  // ----------------------------------------------------------- one endpoint settled

  /** In a reached state, an endpoint is settled exactly as its closed form says. */
  ghost predicate Agrees(settled: Result<(string, Table), LinkError>, outcome: Result<string, LinkError>, e: Endpoint,
                         table: Table)
  {
    && (settled.Ok? <==> outcome.Ok?)
    && (settled.Ok? ==> settled.value.0 == outcome.value)
    && (settled.Err? && (e.adapter.Some? ==> e.adapter.value in table.drafts) ==> settled.error == outcome.error)
  }

  lemma {:induction false} NamedAgrees(table: Table, nodes: map<string, Resource>, before: seq<Endpoint>, now: Table,
                                       used: set<string>,
                                       e: Endpoint)
    requires TableSound(table) && Reached(table, nodes, before, now, used)
    requires e.node in nodes && !nodes[e.node].OtherResource? && e.adapter.Some?
    ensures Agrees(Settle(now, nodes, used, e), Outcome(table, nodes, before, e), e, table)
  {
    var name := e.adapter.value;
    assert ReachedAt(table, nodes, before, now, used, e.node);
    if name in now.drafts && now.drafts[name].owner == e.node {
      DeclaredOwned(now, name);
      if name in table.drafts {
        DeclaredOwned(table, name);
      } else if name in Owned(table, e.node) {
        OneOwner(table, name, e.node);
      }
    }
  }

  lemma {:induction false} UnnamedAgrees(table: Table, nodes: map<string, Resource>, before: seq<Endpoint>, now: Table,
                                         used: set<string>,
                                         e: Endpoint)
    requires TableSound(table) && Reached(table, nodes, before, now, used)
    requires e.node in nodes && !nodes[e.node].OtherResource? && e.adapter.None?
    ensures Agrees(Settle(now, nodes, used, e), Outcome(table, nodes, before, e), e, table)
  {
    var owned, count := Owned(table, e.node), Unnamed(before, e.node);
    var spare, extra := Spare(owned, NamedBy(before)), ExtraAt(table, before, e.node);
    assert ReachedAt(table, nodes, before, now, used, e.node);
    OwnedDistinct(table, e.node);
    UsedInOwned(table, nodes, before, now, used, e.node);
    FreeIsSpare(owned, AutoNames(e.node, FreshAt(table, nodes, e.node, extra)), NamedBy(before), used, count);
    if count >= |spare| {
      FreshNew(UsedNumbers(table, e.node), FirstAt(nodes, e.node), extra);
    }
  }

  lemma {:induction false} UsedInOwned(table: Table, nodes: map<string, Resource>, before: seq<Endpoint>, now: Table,
                                       used: set<string>,
                                       node: string)
    requires TableSound(table) && Reached(table, nodes, before, now, used)
    ensures var owned, more := Owned(table, node),
              AutoNames(node, FreshAt(table, nodes, node, ExtraAt(table, before, node)));
            && (forall name :: name in owned ==>
                 (name in used <==>
                  name in NamedBy(before) || name in UpTo(Spare(owned, NamedBy(before)), Unnamed(before, node))))
            && forall name :: name in more ==> name in used
  {
    var owned, more := Owned(table, node), AutoNames(node, FreshAt(table, nodes, node, ExtraAt(table, before, node)));
    assert ReachedAt(table, nodes, before, now, used, node);
    OwnedDistinct(now, node);
    forall name | name in more
      ensures name !in owned && name in Owned(now, node)
    {
      var i :| 0 <= i < |more| && more[i] == name;
      assert Owned(now, node)[|owned| + i] == name;
      assert forall k :: 0 <= k < |owned| ==> Owned(now, node)[k] == owned[k];
    }
  }

  lemma {:induction false} NamedUse(table: Table, before: seq<Endpoint>, e: Endpoint, node: string)
    requires TableSound(table) && e.adapter.Some? && e.adapter.value !in NamedBy(before)
    requires e.adapter.value !in UpTo(Spare(Owned(table, node), NamedBy(before)), Unnamed(before, node))
    ensures ExtraAt(table, before + [e], node) == ExtraAt(table, before, node)
    ensures forall x :: InUse(table, before + [e], node, x) <==> InUse(table, before, node, x) || x == e.adapter.value
  {
    OneMoreEndpoint(before, e, node);
    OwnedDistinct(table, node);
    NamingKeepsUse(Owned(table, node), NamedBy(before), e.adapter.value, Unnamed(before, node));
  }

  lemma {:induction false} UpToMember(owned: seq<string>, named: set<string>, m: nat, name: string)
    requires name in UpTo(Spare(owned, named), m)
    ensures name in owned
  {
    SpareMember(owned, named, name);
  }

  lemma {:induction false} NamedStep(table: Table, nodes: map<string, Resource>, before: seq<Endpoint>, now: Table,
                                     used: set<string>,
                                     e: Endpoint, node: string)
    requires TableSound(table) && ReachedAt(table, nodes, before, now, used, node)
    requires e.adapter.Some? && Outcome(table, nodes, before, e) == Ok(e.adapter.value)
    ensures ReachedAt(table, nodes, before + [e], now, used + {e.adapter.value}, node)
  {
    var name := e.adapter.value;
    if name in UpTo(Spare(Owned(table, node), NamedBy(before)), Unnamed(before, node)) {
      UpToMember(Owned(table, node), NamedBy(before), Unnamed(before, node), name);
      OneOwner(table, name, node);
      assert false;
    }
    NamedUse(table, before, e, node);
  }

  lemma {:induction false} SpareUse(table: Table, before: seq<Endpoint>, e: Endpoint)
    requires e.adapter.None? && Unnamed(before, e.node) < |Spare(Owned(table, e.node), NamedBy(before))|
    ensures ExtraAt(table, before + [e], e.node) == ExtraAt(table, before, e.node)
    ensures var name := Spare(Owned(table, e.node), NamedBy(before))[Unnamed(before, e.node)];
            forall x :: InUse(table, before + [e], e.node, x) <==> InUse(table, before, e.node, x) || x == name
  {
    OneMoreEndpoint(before, e, e.node);
    var spare, count := Spare(Owned(table, e.node), NamedBy(before)), Unnamed(before, e.node);
    assert spare[..count + 1] == spare[..count] + [spare[count]];
    assert UpTo(spare, count + 1) == spare[..count + 1];
  }

  /** An endpoint without a name leaves other nodes alone. */
  lemma {:induction false} ElsewhereSame(table: Table, before: seq<Endpoint>, e: Endpoint, node: string)
    requires e.adapter.None? && e.node != node
    ensures ExtraAt(table, before + [e], node) == ExtraAt(table, before, node)
    ensures forall x :: InUse(table, before + [e], node, x) <==> InUse(table, before, node, x)
  {
    OneMoreEndpoint(before, e, node);
  }

  lemma {:induction false} SpareStep(table: Table, nodes: map<string, Resource>, before: seq<Endpoint>, now: Table,
                                     used: set<string>,
                                     e: Endpoint, node: string)
    requires TableSound(table) && Reached(table, nodes, before, now, used) && e.adapter.None?
    requires Unnamed(before, e.node) < |Spare(Owned(table, e.node), NamedBy(before))|
    ensures var spare, count := Spare(Owned(table, e.node), NamedBy(before)), Unnamed(before, e.node);
            ReachedAt(table, nodes, before + [e], now, used + {spare[count]}, node)
  {
    var name := Spare(Owned(table, e.node), NamedBy(before))[Unnamed(before, e.node)];
    assert ReachedAt(table, nodes, before, now, used, node);
    if node == e.node {
      SpareUse(table, before, e);
    } else {
      ElsewhereSame(table, before, e, node);
      SpareMember(Owned(table, e.node), NamedBy(before), name);
      OneOwner(table, name, e.node);
      if name in Owned(now, node) {
        OneOwner(now, name, node);
      }
    }
  }

  /** Creating an adapter uses its number for its owner and no other number. */
  lemma {:induction false} RegisterUses(table: Table, draft: Draft, node: string)
    requires OwnerSound(table, node) && draft.name !in table.drafts
    ensures UsedNumbers(Register(table, draft), node)
            == if node == draft.owner then UsedNumbers(table, node) + {draft.number} else UsedNumbers(table, node)
  {
    var after, owned := Register(table, draft), Owned(table, node);
    forall i | 0 <= i < |owned|
      ensures NumberAt(after, node, i) == NumberAt(table, node, i)
    {
      assert owned[i] in owned && Owned(after, node)[i] == owned[i];
    }
    if node == draft.owner {
      assert NumberAt(after, node, |owned|) == draft.number;
      assert |Owned(after, node)| == |owned| + 1;
      assert UsedNumbers(after, node) == (set i | 0 <= i < |owned| :: NumberAt(after, node, i)) + {draft.number};
    }
  }

  lemma {:induction false} RegisterReserves(table: Table, draft: Draft, node: string, n: nat)
    requires draft.name == AdapterName(draft.owner, draft.number)
    ensures AdapterName(node, n) in Register(table, draft).reserved
            <==> AdapterName(node, n) in table.reserved || (node == draft.owner && n == draft.number)
  {
    if AdapterName(node, n) == draft.name {
      NamesInjective(node, n, draft.owner, draft.number);
    }
  }

  lemma {:induction false} AutoLists(table: Table, nodes: map<string, Resource>, now: Table, node: string, extra: nat)
    requires TableSound(now) && node in nodes && ListsAt(table, nodes, now, node, extra)
    requires Automatic(now, nodes[node], node).name !in now.reserved
    ensures ListsAt(table, nodes, Register(now, Automatic(now, nodes[node], node)), node, extra + 1)
  {
    var draft := Automatic(now, nodes[node], node);
    var numbers, longer := FreshAt(table, nodes, node, extra), FreshAt(table, nodes, node, extra + 1);
    assert longer == numbers + [draft.number];
    assert AutoNames(node, longer) == AutoNames(node, numbers) + [draft.name];
    assert UsedNumbers(Register(now, draft), node) == UsedNumbers(now, node) + {draft.number} by {
      RegisteredIsNew(now, draft);
      assert OwnerSound(now, node);
      RegisterUses(now, draft, node);
    }
    AutoReserves(table, now, draft, numbers);
  }

  lemma {:induction false} AutoReserves(table: Table, now: Table, draft: Draft, numbers: seq<nat>)
    requires draft.name == AdapterName(draft.owner, draft.number)
    requires forall n ::
      AdapterName(draft.owner, n) in now.reserved <==> AdapterName(draft.owner, n) in table.reserved || n in numbers
    ensures forall n :: AdapterName(draft.owner, n) in Register(now, draft).reserved
                        <==> AdapterName(draft.owner, n) in table.reserved || n in numbers + [draft.number]
  {
    forall n: nat
      ensures AdapterName(draft.owner, n) in Register(now, draft).reserved
              <==> AdapterName(draft.owner, n) in table.reserved || n in numbers + [draft.number]
    {
      RegisterReserves(now, draft, draft.owner, n);
    }
  }

  lemma {:induction false} AutoUse(table: Table, before: seq<Endpoint>, e: Endpoint)
    requires e.adapter.None? && Unnamed(before, e.node) >= |Spare(Owned(table, e.node), NamedBy(before))|
    ensures ExtraAt(table, before + [e], e.node) == ExtraAt(table, before, e.node) + 1
    ensures forall x :: InUse(table, before + [e], e.node, x) <==> InUse(table, before, e.node, x)
  {
    OneMoreEndpoint(before, e, e.node);
  }

  lemma {:induction false} AutoStepHere(table: Table, nodes: map<string, Resource>, before: seq<Endpoint>, now: Table,
                                        used: set<string>,
                                        e: Endpoint)
    requires TableSound(table) && Reached(table, nodes, before, now, used) && e.adapter.None? && e.node in nodes
    requires Unnamed(before, e.node) >= |Spare(Owned(table, e.node), NamedBy(before))|
    requires Automatic(now, nodes[e.node], e.node).name !in now.reserved
    ensures var draft := Automatic(now, nodes[e.node], e.node);
            ReachedAt(table, nodes, before + [e], Register(now, draft), used + {draft.name}, e.node)
  {
    var node, draft := e.node, Automatic(now, nodes[e.node], e.node);
    assert ReachedAt(table, nodes, before, now, used, node);
    AutoLists(table, nodes, now, node, ExtraAt(table, before, node));
    AutoUse(table, before, e);
    NewIsNotDeclared(table, nodes, before, now, used, draft.name, node);
    assert InUse(table, before, node, draft.name);
  }

  /** A name that is not in use yet is neither declared nor in use by an endpoint. */
  lemma {:induction false} NewIsNotDeclared(table: Table, nodes: map<string, Resource>, before: seq<Endpoint>,
                                            now: Table, used: set<string>,
                                            name: string, node: string)
    requires TableSound(table) && Reached(table, nodes, before, now, used) && name !in now.reserved
    ensures name !in now.drafts && name !in Owned(table, node) && name !in Owned(now, node)
  {
    assert name in now.drafts ==> DraftSound(now, name);
    if name in Owned(table, node) {
      OneOwner(table, name, node);
    }
    if name in Owned(now, node) {
      OneOwner(now, name, node);
    }
  }

  lemma {:induction false} ListsElsewhere(table: Table, nodes: map<string, Resource>, now: Table, draft: Draft,
                                          node: string, extra: nat)
    requires TableSound(now) && ListsAt(table, nodes, now, node, extra) && node != draft.owner
    requires draft.name == AdapterName(draft.owner, draft.number) && draft.name !in now.reserved
    ensures ListsAt(table, nodes, Register(now, draft), node, extra)
  {
    RegisteredIsNew(now, draft);
    assert OwnerSound(now, node);
    RegisterUses(now, draft, node);
    forall n: nat
      ensures AdapterName(node, n) in Register(now, draft).reserved <==> AdapterName(node, n) in now.reserved
    {
      RegisterReserves(now, draft, node, n);
    }
  }

  lemma {:induction false} AutoStepThere(table: Table, nodes: map<string, Resource>, before: seq<Endpoint>, now: Table,
                                         used: set<string>,
                                         e: Endpoint, node: string)
    requires TableSound(table) && Reached(table, nodes, before, now, used) && e.adapter.None? && e.node in nodes
             && node != e.node
    requires Automatic(now, nodes[e.node], e.node).name !in now.reserved
    ensures var draft := Automatic(now, nodes[e.node], e.node);
            ReachedAt(table, nodes, before + [e], Register(now, draft), used + {draft.name}, node)
  {
    var draft := Automatic(now, nodes[e.node], e.node);
    assert ReachedAt(table, nodes, before, now, used, node);
    ElsewhereSame(table, before, e, node);
    ListsElsewhere(table, nodes, now, draft, node, ExtraAt(table, before, node));
    NewIsNotDeclared(table, nodes, before, now, used, draft.name, node);
  }

  lemma {:induction false} StepsOn(table: Table, nodes: map<string, Resource>, before: seq<Endpoint>, now: Table,
                                   used: set<string>,
                                   e: Endpoint)
    requires TableSound(table) && Reached(table, nodes, before, now, used)
    ensures Agrees(Settle(now, nodes, used, e), Outcome(table, nodes, before, e), e, table)
    ensures var settled := Settle(now, nodes, used, e);
            settled.Ok? ==> Reached(table, nodes, before + [e], settled.value.1, used + {settled.value.0})
  {
    if e.node in nodes && !nodes[e.node].OtherResource? {
      if e.adapter.Some? {
        NamedAgrees(table, nodes, before, now, used, e);
        if Outcome(table, nodes, before, e).Ok? {
          NamedOn(table, nodes, before, now, used, e);
        }
      } else {
        UnnamedAgrees(table, nodes, before, now, used, e);
        if Outcome(table, nodes, before, e).Ok? {
          UnnamedOn(table, nodes, before, now, used, e);
        }
      }
    }
  }

  lemma {:induction false} NamedOn(table: Table, nodes: map<string, Resource>, before: seq<Endpoint>, now: Table,
                                   used: set<string>,
                                   e: Endpoint)
    requires TableSound(table) && Reached(table, nodes, before, now, used)
    requires e.adapter.Some? && Outcome(table, nodes, before, e) == Ok(e.adapter.value)
    ensures Reached(table, nodes, before + [e], now, used + {e.adapter.value})
  {
    forall node
      ensures ReachedAt(table, nodes, before + [e], now, used + {e.adapter.value}, node)
    {
      NamedStep(table, nodes, before, now, used, e, node);
    }
  }

  lemma {:induction false} UnnamedOn(table: Table, nodes: map<string, Resource>, before: seq<Endpoint>, now: Table,
                                     used: set<string>,
                                     e: Endpoint)
    requires TableSound(table) && Reached(table, nodes, before, now, used)
    requires e.adapter.None? && e.node in nodes && !nodes[e.node].OtherResource? && Settle(now, nodes, used, e).Ok?
    requires Agrees(Settle(now, nodes, used, e), Outcome(table, nodes, before, e), e, table)
    ensures var settled := Settle(now, nodes, used, e).value;
            Reached(table, nodes, before + [e], settled.1, used + {settled.0})
  {
    var settled := Settle(now, nodes, used, e).value;
    var owned, count := Owned(table, e.node), Unnamed(before, e.node);
    var spare := Spare(owned, NamedBy(before));
    assert ReachedAt(table, nodes, before, now, used, e.node);
    OwnedDistinct(table, e.node);
    UsedInOwned(table, nodes, before, now, used, e.node);
    FreeIsSpare(owned, AutoNames(e.node, FreshAt(table, nodes, e.node, ExtraAt(table, before, e.node))),
        NamedBy(before), used, count);
    if count < |spare| {
      SpareMember(owned, NamedBy(before), spare[count]);
      OneOwner(table, spare[count], e.node);
      forall node
        ensures ReachedAt(table, nodes, before + [e], now, used + {spare[count]}, node)
      {
        SpareStep(table, nodes, before, now, used, e, node);
      }
    } else {
      var draft := Automatic(now, nodes[e.node], e.node);
      RegisterKeepsSound(now, draft);
      RegisteredIsNew(now, draft);
      forall node
        ensures ReachedAt(table, nodes, before + [e], Register(now, draft), used + {draft.name}, node)
      {
        if node == e.node {
          AutoStepHere(table, nodes, before, now, used, e);
        } else {
          AutoStepThere(table, nodes, before, now, used, e, node);
        }
      }
    }
  }

  // --------------------------------------------------------------------- all links

  ghost predicate AllSettled(table: Table, nodes: map<string, Resource>, endpoints: seq<Endpoint>, names: seq<string>) {
    && |names| <= |endpoints|
    && forall i :: 0 <= i < |names| ==> Outcome(table, nodes, endpoints[..i], endpoints[i]) == Ok(names[i])
  }

  /** This endpoint can be given an adapter, judged by the declared adapters and the endpoints before it. */
  ghost predicate FitsAt(table: Table, nodes: map<string, Resource>, endpoints: seq<Endpoint>, i: nat)
    requires i < |endpoints|
  {
    Outcome(table, nodes, endpoints[..i], endpoints[i]).Ok?
  }

  ghost predicate Attachable(table: Table, nodes: map<string, Resource>, endpoints: seq<Endpoint>) {
    forall i :: 0 <= i < |endpoints| ==> FitsAt(table, nodes, endpoints, i)
  }

  ghost predicate FailsFirstAt(table: Table, nodes: map<string, Resource>, endpoints: seq<Endpoint>, i: nat,
                               error: LinkError)
    requires i < |endpoints|
  {
    var outcome := Outcome(table, nodes, endpoints[..i], endpoints[i]);
    && outcome.Err? && (forall k :: 0 <= k < i ==> FitsAt(table, nodes, endpoints, k))
    && ((endpoints[i].adapter.Some? ==> endpoints[i].adapter.value in table.drafts) ==> error == outcome.error)
  }

  ghost predicate OwnersFit(now: Table, endpoints: seq<Endpoint>, names: seq<string>) {
    && |names| <= |endpoints|
    && forall i :: 0 <= i < |names| ==> names[i] in now.drafts && now.drafts[names[i]].owner == endpoints[i].node
  }

  /** The endpoints before the next are settled, each with an adapter of its own. */
  ghost predicate Progress(table: Table, nodes: map<string, Resource>, endpoints: seq<Endpoint>, now: Table,
                           names: seq<string>)
  {
    && AllSettled(table, nodes, endpoints, names) && OwnersFit(now, endpoints, names) && Distinct(names)
    && Reached(table, nodes, endpoints[..|names|], now, Elements(names))
  }

  lemma {:induction false} SettledFits(now: Table, nodes: map<string, Resource>, used: set<string>, e: Endpoint)
    requires TableSound(now) && used <= now.drafts.Keys && Settle(now, nodes, used, e).Ok?
    ensures var settled := Settle(now, nodes, used, e).value;
            && settled.0 !in used
            && settled.0 in settled.1.drafts && settled.1.drafts[settled.0].owner == e.node
            && Keeps(now, settled.1)
  {
    var free := FirstFree(Owned(now, e.node), used);
    FreeIsFree(Owned(now, e.node), used);
    if e.adapter.None? {
      if free.Some? {
        OneOwner(now, free.value, e.node);
      } else {
        RegisteredIsNew(now, Automatic(now, nodes[e.node], e.node));
      }
    }
  }

  lemma {:induction false} OneMoreName(names: seq<string>, name: string)
    requires Distinct(names) && name !in Elements(names)
    ensures Distinct(names + [name]) && Elements(names + [name]) == Elements(names) + {name}
  {
  }

  lemma {:induction false} OwnersStep(now: Table, grown: Table, endpoints: seq<Endpoint>, names: seq<string>,
                                      name: string)
    requires OwnersFit(now, endpoints, names) && |names| < |endpoints|
    requires Keeps(now, grown)
    requires name in grown.drafts && grown.drafts[name].owner == endpoints[|names|].node
    ensures OwnersFit(grown, endpoints, names + [name])
  {
  }

  lemma {:induction false} SettledStep(table: Table, nodes: map<string, Resource>, endpoints: seq<Endpoint>,
                                       names: seq<string>, name: string)
    requires AllSettled(table, nodes, endpoints, names) && |names| < |endpoints|
    requires Outcome(table, nodes, endpoints[..|names|], endpoints[|names|]) == Ok(name)
    ensures AllSettled(table, nodes, endpoints, names + [name])
  {
  }

  lemma {:induction false} ReachedStep(table: Table, nodes: map<string, Resource>, endpoints: seq<Endpoint>, n: nat,
                                       now: Table,
                                       used: set<string>, name: string, grown: Table)
    requires TableSound(table) && n < |endpoints| && Reached(table, nodes, endpoints[..n], now, used)
    requires Settle(now, nodes, used, endpoints[n]) == Ok((name, grown))
    ensures Outcome(table, nodes, endpoints[..n], endpoints[n]) == Ok(name)
    ensures Reached(table, nodes, endpoints[..n + 1], grown, used + {name})
  {
    StepsOn(table, nodes, endpoints[..n], now, used, endpoints[n]);
    assert endpoints[..n + 1] == endpoints[..n] + [endpoints[n]];
  }

  lemma {:induction false} ProgressStep(table: Table, nodes: map<string, Resource>, endpoints: seq<Endpoint>,
                                        now: Table,
                                        names: seq<string>, name: string, grown: Table)
    requires TableSound(table) && Progress(table, nodes, endpoints, now, names) && |names| < |endpoints|
    requires Settle(now, nodes, Elements(names), endpoints[|names|]) == Ok((name, grown))
    ensures Progress(table, nodes, endpoints, grown, names + [name])
  {
    assert name !in Elements(names) && OwnersFit(grown, endpoints, names + [name]) by {
      SettledFits(now, nodes, Elements(names), endpoints[|names|]);
      OwnersStep(now, grown, endpoints, names, name);
    }
    ReachedStep(table, nodes, endpoints, |names|, now, Elements(names), name, grown);
    OneMoreName(names, name);
    SettledStep(table, nodes, endpoints, names, name);
  }

  lemma {:induction false} FailureStep(table: Table, nodes: map<string, Resource>, endpoints: seq<Endpoint>, now: Table,
                                       names: seq<string>, error: LinkError)
    requires TableSound(table) && Progress(table, nodes, endpoints, now, names) && |names| < |endpoints|
    requires Settle(now, nodes, Elements(names), endpoints[|names|]) == Err(error)
    ensures FailsFirstAt(table, nodes, endpoints, |names|, error) && !FitsAt(table, nodes, endpoints, |names|)
  {
    StepsOn(table, nodes, endpoints[..|names|], now, Elements(names), endpoints[|names|]);
  }

  lemma {:induction false} DraftsReserved(now: Table, used: set<string>)
    requires TableSound(now) && used <= now.drafts.Keys
    ensures used <= now.reserved
  {
    forall name | name in used
      ensures name in now.reserved
    {
      assert DraftSound(now, name);
    }
  }

  /** Resolves the next endpoint, in a state where those before it are settled. */
  method ResolveNext(ghost table: Table, nodes: map<string, Resource>, endpoints: seq<Endpoint>, now: Table,
                     names: seq<string>,
                     used: set<string>)
    returns (r: Result<string, LinkError>, after: Table)
    requires TableSound(table) && Progress(table, nodes, endpoints, now, names) && |names| < |endpoints|
    requires used == Elements(names)
    ensures r.Ok? ==> Progress(table, nodes, endpoints, after, names + [r.value])
    ensures r.Err? ==> after == now && !FitsAt(table, nodes, endpoints, |names|)
                       && FailsFirstAt(table, nodes, endpoints, |names|, r.error)
  {
    DraftsReserved(now, used);
    r, after := ResolveEndpoint(now, nodes, used, endpoints[|names|]);
    if r.Ok? {
      ProgressStep(table, nodes, endpoints, now, names, r.value, after);
    } else {
      FailureStep(table, nodes, endpoints, now, names, r.error);
    }
  }

  lemma {:induction false} AllFit(table: Table, nodes: map<string, Resource>, endpoints: seq<Endpoint>,
                                  names: seq<string>)
    requires AllSettled(table, nodes, endpoints, names) && |names| == |endpoints|
    ensures Attachable(table, nodes, endpoints)
  {
  }

  /** Resolves the endpoints of all links, in order, up to the first that cannot be. */
  method ResolveLinks(table: Table, nodes: map<string, Resource>, endpoints: seq<Endpoint>)
    returns (r: Result<seq<string>, LinkError>, after: Table)
    requires TableSound(table)
    ensures r.Ok? <==> Attachable(table, nodes, endpoints)
    ensures r.Ok? ==> |r.value| == |endpoints| && AllSettled(table, nodes, endpoints, r.value)
    ensures r.Ok? ==> Distinct(r.value) && OwnersFit(after, endpoints, r.value)
    ensures r.Err? ==> exists i :: 0 <= i < |endpoints| && FailsFirstAt(table, nodes, endpoints, i, r.error)
    ensures TableSound(after) && Keeps(table, after)
  {
    after := table;
    var used: set<string> := {};
    var names: seq<string> := [];
    ReachedFirst(table, nodes);
    assert endpoints[..0] == [];
    for i := 0 to |endpoints|
      invariant |names| == i && used == Elements(names)
      invariant Progress(table, nodes, endpoints, after, names)
    {
      var one, grown := ResolveNext(table, nodes, endpoints, after, names, used);
      if one.Err? {
        return Err(one.error), grown;
      }
      assert Elements(names + [one.value]) == used + {one.value};
      after, used, names := grown, used + {one.value}, names + [one.value];
    }
    AllFit(table, nodes, endpoints, names);
    r := Ok(names);
  }
}
