/**
 * The adapters that a topology declares: mininet_ai/compiler/compiler.py,
 * `_build_resources` and `_declare_adapters`.
 */
module Adapters {
  import opened Basics
  import opened Ports

  datatype Port = Port(name: Option<string>, number: Option<nat>)

  /** A topology resource, as far as links can attach to it. */
  datatype Resource =
    | HostResource(name: string, interfaces: seq<Option<string>>)
    | SwitchResource(name: string, ports: seq<Port>)
    | OtherResource(name: string)

  datatype Draft = Draft(name: string, owner: string, number: nat)

  /** The adapters declared or created so far: by name, by owner in order, and every name in use. */
  datatype Table = Table(drafts: map<string, Draft>, byOwner: map<string, seq<string>>, reserved: set<string>)

  datatype DeclareError = DuplicatePorts | DuplicateName

  function Owned(table: Table, owner: string): seq<string> {
    if owner in table.byOwner then table.byOwner[owner] else []
  }

  ghost predicate DraftSound(table: Table, name: string)
    requires name in table.drafts
  {
    table.drafts[name].name == name && name in Owned(table, table.drafts[name].owner) && name in table.reserved
  }

  ghost predicate OwnerSound(table: Table, owner: string) {
    && (forall name :: name in Owned(table, owner) ==> name in table.drafts && table.drafts[name].owner == owner)
    && forall i, j :: 0 <= i < j < |Owned(table, owner)| ==>
         NumberAt(table, owner, i) != NumberAt(table, owner, j) && Owned(table, owner)[i] != Owned(table, owner)[j]
  }

  function NumberAt(table: Table, owner: string, i: nat): nat {
    var owned := Owned(table, owner);
    if i < |owned| && owned[i] in table.drafts then table.drafts[owned[i]].number else 0
  }

  /** Names identify adapters, and the numbers of one owner's adapters are distinct. */
  ghost predicate TableSound(table: Table) {
    && (forall name :: name in table.drafts ==> DraftSound(table, name))
    && forall owner :: OwnerSound(table, owner)
  }

  function UsedNumbers(table: Table, owner: string): set<nat> {
    set i | 0 <= i < |Owned(table, owner)| :: NumberAt(table, owner, i)
  }

  function Register(table: Table, draft: Draft): Table {
    Table(table.drafts[draft.name := draft], table.byOwner[draft.owner := Owned(table, draft.owner) + [draft.name]],
          table.reserved + {draft.name})
  }

  lemma {:induction false} RegisterKeepsOwner(table: Table, draft: Draft, owner: string)
    requires OwnerSound(table, owner) && draft.name !in table.drafts
    requires draft.number !in UsedNumbers(table, draft.owner)
    ensures OwnerSound(Register(table, draft), owner)
  {
    var after := Register(table, draft);
    forall i | 0 <= i < |Owned(table, owner)|
      ensures Owned(after, owner)[i] == Owned(table, owner)[i] != draft.name
      ensures NumberAt(after, owner, i) == NumberAt(table, owner, i)
      ensures NumberAt(table, owner, i) in UsedNumbers(table, owner)
    {
      assert Owned(table, owner)[i] in Owned(table, owner);
    }
    if owner == draft.owner {
      assert NumberAt(after, owner, |Owned(table, owner)|) == draft.number;
    }
  }

  lemma {:induction false} RegisterKeepsSound(table: Table, draft: Draft)
    requires TableSound(table) && draft.name !in table.reserved && draft.number !in UsedNumbers(table, draft.owner)
    ensures TableSound(Register(table, draft))
  {
    var after := Register(table, draft);
    RegisteredIsNew(table, draft);
    forall name | name in after.drafts
      ensures DraftSound(after, name)
    {
      if name != draft.name {
        assert DraftSound(table, name);
      }
    }
    forall owner
      ensures OwnerSound(after, owner)
    {
      assert OwnerSound(table, owner);
      RegisterKeepsOwner(table, draft, owner);
    }
  }

  lemma {:induction false} RegisteredIsNew(table: Table, draft: Draft)
    requires TableSound(table) && draft.name !in table.reserved
    ensures draft.name !in table.drafts
  {
    assert draft.name in table.drafts ==> DraftSound(table, draft.name);
  }

  // ---------------------------------------------------------- declared adapters

  function NameOr(name: Option<string>, owner: string, number: nat): string {
    if name.Some? then name.value else AdapterName(owner, number)
  }

  function HostDrafts(owner: string, interfaces: seq<Option<string>>): seq<Draft> {
    seq(|interfaces|, i requires 0 <= i < |interfaces| => Draft(NameOr(interfaces[i], owner, i), owner, i))
  }

  function SwitchDrafts(owner: string, ports: seq<Port>, numbers: seq<nat>): seq<Draft>
    requires |numbers| == |ports|
  {
    seq(|ports|, i requires 0 <= i < |ports| => Draft(NameOr(ports[i].name, owner, numbers[i]), owner, numbers[i]))
  }

  function Asked(ports: seq<Port>): seq<Option<nat>> {
    seq(|ports|, i requires 0 <= i < |ports| => ports[i].number)
  }

  /** Interfaces of a host are numbered from zero, ports of a switch by what they ask for. */
  ghost function DraftsOf(resource: Resource): seq<Draft> {
    match resource
    case HostResource(name, interfaces) => HostDrafts(name, interfaces)
    case SwitchResource(name, ports) => SwitchDrafts(name, ports, Numbers(Asked(ports)))
    case OtherResource(_) => []
  }

  ghost function AllDrafts(resources: seq<Resource>): seq<Draft> {
    if resources == [] then []
    else AllDrafts(resources[..|resources| - 1]) + DraftsOf(resources[|resources| - 1])
  }

  function DraftNames(drafts: seq<Draft>): (names: seq<string>)
    ensures |names| == |drafts|
  {
    seq(|drafts|, i requires 0 <= i < |drafts| => drafts[i].name)
  }

  function ResourceNames(resources: seq<Resource>): (names: seq<string>)
    ensures |names| == |resources|
  {
    seq(|resources|, i requires 0 <= i < |resources| => resources[i].name)
  }

  ghost predicate PortsDiffer(resource: Resource) {
    resource.SwitchResource? ==> ExplicitDistinct(Asked(resource.ports))
  }

  /** No two adapters share a name, and none has a name that is in use. */
  ghost predicate Unclaimed(drafts: seq<Draft>, reserved: set<string>) {
    Distinct(DraftNames(drafts)) && forall d :: d in drafts ==> d.name !in reserved
  }

  function RegisterAll(table: Table, drafts: seq<Draft>): Table {
    if drafts == [] then table
    else Register(RegisterAll(table, drafts[..|drafts| - 1]), drafts[|drafts| - 1])
  }

  lemma {:induction false} RegisterAllSplit(table: Table, first: seq<Draft>, second: seq<Draft>)
    ensures RegisterAll(table, first + second) == RegisterAll(RegisterAll(table, first), second)
  {
    if second == [] {
      assert first + second == first;
    } else {
      var n := |second| - 1;
      assert (first + second)[..|first + second| - 1] == first + second[..n];
      RegisterAllSplit(table, first, second[..n]);
    }
  }

  lemma {:induction false} RegisterAllReserves(table: Table, drafts: seq<Draft>)
    ensures RegisterAll(table, drafts).reserved == table.reserved + Elements(DraftNames(drafts))
  {
    if drafts != [] {
      var n := |drafts| - 1;
      RegisterAllReserves(table, drafts[..n]);
      assert DraftNames(drafts) == DraftNames(drafts[..n]) + [drafts[n].name];
    }
  }

  lemma {:induction false} UnclaimedSplit(first: seq<Draft>, second: seq<Draft>, reserved: set<string>)
    ensures Unclaimed(first + second, reserved)
            <==> Unclaimed(first, reserved) && Unclaimed(second, reserved + Elements(DraftNames(first)))
  {
    var all := first + second;
    assert DraftNames(all) == DraftNames(first) + DraftNames(second);
    if Unclaimed(first, reserved) && Unclaimed(second, reserved + Elements(DraftNames(first))) {
      forall i, j | 0 <= i < j < |all|
        ensures DraftNames(all)[i] != DraftNames(all)[j]
      {
        if i < |first| <= j {
          assert second[j - |first|] in second && DraftNames(first)[i] in Elements(DraftNames(first));
        }
      }
    }
    if Unclaimed(all, reserved) {
      UnclaimedParts(first, second, reserved);
    }
  }

  lemma {:induction false} UnclaimedParts(first: seq<Draft>, second: seq<Draft>, reserved: set<string>)
    requires Unclaimed(first + second, reserved)
    ensures Unclaimed(first, reserved) && Unclaimed(second, reserved + Elements(DraftNames(first)))
  {
    var names := DraftNames(first + second);
    assert forall i :: 0 <= i < |first| ==> names[i] == first[i].name;
    assert forall i :: 0 <= i < |second| ==> names[|first| + i] == second[i].name;
    assert forall d :: d in second ==> d in first + second;
    assert forall d :: d in first ==> d in first + second;
  }

  /** Registers adapters in order; fails exactly when a name repeats or is in use. */
  method RegisterEach(table: Table, drafts: seq<Draft>) returns (r: Result<Table, DeclareError>)
    ensures r.Ok? <==> Unclaimed(drafts, table.reserved)
    ensures r.Ok? ==> r.value == RegisterAll(table, drafts)
    ensures r.Err? ==> r.error == DuplicateName
  {
    var after := table;
    for i := 0 to |drafts|
      invariant after == RegisterAll(table, drafts[..i]) && Unclaimed(drafts[..i], table.reserved)
    {
      RegisterAllReserves(table, drafts[..i]);
      UnclaimedOne(drafts, i, table.reserved);
      if drafts[i].name in after.reserved {
        return Err(DuplicateName);
      }
      assert drafts[..i + 1][..i] == drafts[..i];
      after := Register(after, drafts[i]);
    }
    assert drafts[..|drafts|] == drafts;
    r := Ok(after);
  }

  lemma {:induction false} UnclaimedOne(drafts: seq<Draft>, i: nat, reserved: set<string>)
    requires i < |drafts| && Unclaimed(drafts[..i], reserved)
    ensures Unclaimed(drafts[..i + 1], reserved) <==> drafts[i].name !in reserved + Elements(DraftNames(drafts[..i]))
    ensures drafts[i].name in reserved + Elements(DraftNames(drafts[..i])) ==> !Unclaimed(drafts, reserved)
  {
    assert drafts[..i + 1] == drafts[..i] + [drafts[i]];
    UnclaimedSplit(drafts[..i], [drafts[i]], reserved);
    assert drafts == drafts[..i + 1] + drafts[i + 1..];
    UnclaimedSplit(drafts[..i + 1], drafts[i + 1..], reserved);
  }

  /** The table that holds exactly these declarations. */
  ghost function Declared(resources: seq<Resource>, reserved: set<string>): Table {
    RegisterAll(Table(map[], map[], reserved), AllDrafts(resources))
  }

  /** What makes the declarations of a topology acceptable. */
  ghost predicate Declarable(resources: seq<Resource>, reserved: set<string>) {
    (forall r :: r in resources ==> PortsDiffer(r)) && Unclaimed(AllDrafts(resources), reserved)
  }

  /** Declares the adapters of one resource. */
  method DeclareOne(table: Table, resource: Resource) returns (r: Result<Table, DeclareError>)
    ensures r.Ok? <==> PortsDiffer(resource) && Unclaimed(DraftsOf(resource), table.reserved)
    ensures r.Ok? ==> r.value == RegisterAll(table, DraftsOf(resource))
    ensures r.Err? ==> r.error == if PortsDiffer(resource) then DuplicateName else DuplicatePorts
  {
    match resource
    case HostResource(name, interfaces) =>
      r := RegisterEach(table, HostDrafts(name, interfaces));
    case SwitchResource(name, ports) =>
      var numbers := NumberPorts(Asked(ports));
      if numbers.Err? {
        return Err(DuplicatePorts);
      }
      r := RegisterEach(table, SwitchDrafts(name, ports, numbers.value));
    case OtherResource(_) =>
      r := Ok(table);
  }

  /**
   * Declares all adapters. It fails exactly when two ports of a switch ask for the same
   * number, or a name repeats or is in use; otherwise every adapter is in the table, and
   * the numbers of each owner's adapters are distinct.
   */
  method DeclareAdapters(resources: seq<Resource>, reserved: set<string>) returns (r: Result<Table, DeclareError>)
    requires Distinct(ResourceNames(resources))
    ensures r.Ok? <==> Declarable(resources, reserved)
    ensures r.Ok? ==> r.value == Declared(resources, reserved)
    ensures r.Ok? ==> TableSound(r.value) && DeclaresAll(r.value, resources)
    ensures r.Ok? ==> r.value.reserved == reserved + Elements(DraftNames(AllDrafts(resources)))
  {
    var table := Table(map[], map[], reserved);
    for i := 0 to |resources|
      invariant table == RegisterAll(Table(map[], map[], reserved), AllDrafts(resources[..i]))
      invariant Declarable(resources[..i], reserved)
    {
      DeclarableOne(resources, i, reserved);
      RegisterAllReserves(Table(map[], map[], reserved), AllDrafts(resources[..i]));
      RegisterAllSplit(Table(map[], map[], reserved), AllDrafts(resources[..i]), DraftsOf(resources[i]));
      var one := DeclareOne(table, resources[i]);
      if one.Err? {
        return Err(one.error);
      }
      table := one.value;
    }
    assert resources[..|resources|] == resources;
    RegisterAllReserves(Table(map[], map[], reserved), AllDrafts(resources));
    DeclaredSound(resources, reserved);
    r := Ok(table);
  }

  lemma {:induction false} DeclarableOne(resources: seq<Resource>, i: nat, reserved: set<string>)
    requires i < |resources| && Declarable(resources[..i], reserved)
    ensures AllDrafts(resources[..i + 1]) == AllDrafts(resources[..i]) + DraftsOf(resources[i])
    ensures var good := PortsDiffer(resources[i])
                        && Unclaimed(DraftsOf(resources[i]), reserved
                             + Elements(DraftNames(AllDrafts(resources[..i]))));
            (Declarable(resources[..i + 1], reserved) <==> good) && (!good ==> !Declarable(resources, reserved))
  {
    var longer := resources[..i + 1];
    assert longer[..i] == resources[..i] && longer == resources[..i] + [resources[i]];
    UnclaimedSplit(AllDrafts(resources[..i]), DraftsOf(resources[i]), reserved);
    if Declarable(resources, reserved) {
      DeclarablePrefix(resources, i + 1, reserved);
    }
  }

  lemma {:induction false} DeclarablePrefix(resources: seq<Resource>, i: nat, reserved: set<string>)
    requires i <= |resources| && Declarable(resources, reserved)
    ensures Declarable(resources[..i], reserved)
  {
    if i == |resources| {
      assert resources[..i] == resources;
    } else {
      var n := |resources| - 1;
      UnclaimedSplit(AllDrafts(resources[..n]), DraftsOf(resources[n]), reserved);
      DeclarablePrefix(resources[..n], i, reserved);
      assert resources[..n][..i] == resources[..i];
    }
  }

  // ------------------------------------------------------ what the table declares

  /** The table holds exactly this resource's adapters for it, in order. */
  ghost predicate Declares(table: Table, owner: string, drafts: seq<Draft>) {
    && Owned(table, owner) == DraftNames(drafts)
    && forall d :: d in drafts ==> d.name in table.drafts && table.drafts[d.name] == d
  }

  ghost predicate DeclaresAll(table: Table, resources: seq<Resource>) {
    && (forall r :: r in resources ==> Declares(table, r.name, DraftsOf(r)))
    && forall owner :: owner !in ResourceNames(resources) ==> Owned(table, owner) == []
  }

  ghost predicate NumbersDiffer(drafts: seq<Draft>) {
    forall i, j :: 0 <= i < j < |drafts| ==> drafts[i].number != drafts[j].number
  }

  ghost predicate OwnedBy(drafts: seq<Draft>, owner: string) {
    forall d :: d in drafts ==> d.owner == owner
  }

  lemma {:induction false} DraftsOfOne(resource: Resource)
    requires PortsDiffer(resource)
    ensures OwnedBy(DraftsOf(resource), resource.name) && NumbersDiffer(DraftsOf(resource))
  {
    if resource.SwitchResource? {
      NumbersDistinct(Asked(resource.ports));
    }
  }

  /** Nothing declared is lost or changed. */
  ghost predicate Keeps(before: Table, after: Table) {
    forall name :: name in before.drafts ==> name in after.drafts && after.drafts[name] == before.drafts[name]
  }

  /** Nothing but the adapters of this owner is new. */
  ghost predicate Extends(before: Table, after: Table, owner: string) {
    Keeps(before, after) && forall other :: other != owner ==> Owned(after, other) == Owned(before, other)
  }

  lemma {:induction false} RegisterOwnerOne(before: Table, owner: string, less: seq<Draft>, last: Draft)
    requires TableSound(before) && Declares(before, owner, less)
    requires last.owner == owner && last.name !in before.reserved && forall d :: d in less ==> d.number != last.number
    ensures TableSound(Register(before, last)) && Declares(Register(before, last), owner, less + [last])
    ensures Extends(before, Register(before, last), owner)
  {
    forall i | 0 <= i < |less|
      ensures NumberAt(before, owner, i) == less[i].number
    {
      assert less[i] in less;
    }
    RegisterKeepsSound(before, last);
    RegisteredIsNew(before, last);
    assert DraftNames(less + [last]) == DraftNames(less) + [last.name];
  }

  /** Registering the adapters of a new owner keeps the table sound. */
  lemma {:induction false} RegisterOwner(table: Table, owner: string, drafts: seq<Draft>)
    requires TableSound(table) && Owned(table, owner) == []
    requires OwnedBy(drafts, owner) && NumbersDiffer(drafts) && Unclaimed(drafts, table.reserved)
    ensures TableSound(RegisterAll(table, drafts)) && Declares(RegisterAll(table, drafts), owner, drafts)
    ensures Extends(table, RegisterAll(table, drafts), owner)
  {
    if drafts != [] {
      var n := |drafts| - 1;
      var less, last := drafts[..n], drafts[n];
      assert drafts == less + [last] && last in drafts;
      UnclaimedSplit(less, [last], table.reserved);
      assert last in [last];
      RegisterOwner(table, owner, less);
      RegisterAllReserves(table, less);
      RegisterOwnerOne(RegisterAll(table, less), owner, less, last);
    }
  }

  lemma {:induction false} EmptySound(reserved: set<string>)
    ensures TableSound(Table(map[], map[], reserved)) && DeclaresAll(Table(map[], map[], reserved), [])
  {
  }

  lemma {:induction false} DeclaredSound(resources: seq<Resource>, reserved: set<string>)
    requires Distinct(ResourceNames(resources)) && Declarable(resources, reserved)
    ensures var table := RegisterAll(Table(map[], map[], reserved), AllDrafts(resources));
            TableSound(table) && DeclaresAll(table, resources)
  {
    if resources == [] {
      EmptySound(reserved);
    } else {
      var n := |resources| - 1;
      var less, last := resources[..n], resources[n];
      assert resources == less + [last];
      DeclarablePrefix(resources, n, reserved);
      NewResource(less, last);
      DeclaredSound(less, reserved);
      DeclaredSoundOne(less, last, reserved);
    }
  }

  lemma {:induction false} NewResource(less: seq<Resource>, last: Resource)
    requires Distinct(ResourceNames(less + [last]))
    ensures Distinct(ResourceNames(less)) && last.name !in ResourceNames(less)
  {
    var names := ResourceNames(less + [last]);
    assert forall i :: 0 <= i < |less| ==> names[i] == ResourceNames(less)[i];
    assert names[|less|] == last.name;
  }

  lemma {:induction false} DeclaredSoundOne(less: seq<Resource>, last: Resource, reserved: set<string>)
    requires Declarable(less + [last], reserved) && last.name !in ResourceNames(less)
    requires var before := RegisterAll(Table(map[], map[], reserved), AllDrafts(less));
             TableSound(before) && DeclaresAll(before, less)
    ensures var table := RegisterAll(Table(map[], map[], reserved), AllDrafts(less + [last]));
            TableSound(table) && DeclaresAll(table, less + [last])
  {
    var start := Table(map[], map[], reserved);
    var before := RegisterAll(start, AllDrafts(less));
    assert (less + [last])[..|less|] == less && last in less + [last];
    UnclaimedSplit(AllDrafts(less), DraftsOf(last), reserved);
    RegisterAllReserves(start, AllDrafts(less));
    RegisterAllSplit(start, AllDrafts(less), DraftsOf(last));
    DraftsOfOne(last);
    RegisterOwner(before, last.name, DraftsOf(last));
    DeclaresGrow(before, RegisterAll(before, DraftsOf(last)), less, last);
  }

  lemma {:induction false} DeclaresGrow(before: Table, after: Table, less: seq<Resource>, last: Resource)
    requires DeclaresAll(before, less) && last.name !in ResourceNames(less)
    requires Declares(after, last.name, DraftsOf(last))
    requires Extends(before, after, last.name)
    ensures DeclaresAll(after, less + [last])
  {
    forall r | r in less
      ensures Declares(after, r.name, DraftsOf(r))
    {
      var k :| 0 <= k < |less| && less[k] == r;
      assert ResourceNames(less)[k] == r.name;
      assert Declares(before, r.name, DraftsOf(r));
    }
    assert ResourceNames(less + [last]) == ResourceNames(less) + [last.name];
  }
}
