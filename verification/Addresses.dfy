/** IPv4 allocation for host interfaces: mininet_ai/compiler/compiler.py, `_allocate_addresses`. */
module Addresses {
  import opened Basics
  import opened Sorting

  datatype Setting = Auto | NoAddress | Explicit(address: nat)

  datatype Interface = Interface(name: string, setting: Setting)

  datatype Subnet = Subnet(network: nat, broadcast: nat)

  datatype AddressError = OutsideSubnet | ReservedAddress | SharedAddress | Exhausted

  predicate Usable(subnet: Subnet, address: nat) {
    subnet.network < address < subnet.broadcast
  }

  function UsableCount(subnet: Subnet): nat {
    if subnet.network + 1 < subnet.broadcast then subnet.broadcast - subnet.network - 1 else 0
  }

  /** The addresses that interfaces ask for. */
  function Asked(interfaces: seq<Interface>): set<nat> {
    if interfaces == [] then {}
    else
      var last := interfaces[|interfaces| - 1].setting;
      Asked(interfaces[..|interfaces| - 1]) + if last.Explicit? then {last.address} else {}
  }

  function ExplicitCount(interfaces: seq<Interface>): nat {
    if interfaces == [] then 0
    else ExplicitCount(interfaces[..|interfaces| - 1]) + if interfaces[|interfaces| - 1].setting.Explicit? then 1 else 0
  }

  function AutoCount(interfaces: seq<Interface>): nat {
    if interfaces == [] then 0
    else AutoCount(interfaces[..|interfaces| - 1]) + if interfaces[|interfaces| - 1].setting.Auto? then 1 else 0
  }

  ghost predicate ExplicitValid(subnet: Subnet, interfaces: seq<Interface>) {
    && (forall i :: 0 <= i < |interfaces| && interfaces[i].setting.Explicit? ==>
         Usable(subnet, interfaces[i].setting.address))
    && (forall i, j ::
          0 <= i < j < |interfaces| && interfaces[i].setting.Explicit? && interfaces[j].setting.Explicit? ==>
            interfaces[i].setting.address != interfaces[j].setting.address)
  }

  /** The addresses given to the interfaces so far. */
  function Given(result: seq<Option<nat>>): set<nat> {
    set k | 0 <= k < |result| && result[k].Some? :: result[k].value
  }

  /** Interface `i` gets what it asked for, nothing, or the least usable address that is free at its turn. */
  ghost predicate FirstFitAt(subnet: Subnet, interfaces: seq<Interface>, result: seq<Option<nat>>, i: nat)
    requires i < |result| <= |interfaces|
  {
    match interfaces[i].setting
    case Explicit(address) => result[i] == Some(address)
    case NoAddress => result[i] == None
    case Auto =>
      && result[i].Some? && Usable(subnet, result[i].value)
      && result[i].value !in Asked(interfaces) && result[i].value !in Given(result[..i])
      && forall a: nat :: Usable(subnet, a) && a < result[i].value ==> a in Asked(interfaces) || a in Given(result[..i])
  }

  ghost predicate FirstFit(subnet: Subnet, interfaces: seq<Interface>, result: seq<Option<nat>>) {
    && |result| == |interfaces|
    && forall i :: 0 <= i < |interfaces| ==> FirstFitAt(subnet, interfaces, result, i)
  }

  /** First fit determines the result. */
  lemma {:induction false} FirstFitUnique(subnet: Subnet, interfaces: seq<Interface>, r: seq<Option<nat>>,
                                          s: seq<Option<nat>>, n: nat)
    requires FirstFit(subnet, interfaces, r) && FirstFit(subnet, interfaces, s) && n <= |interfaces|
    ensures r[..n] == s[..n]
  {
    if n > 0 {
      FirstFitUnique(subnet, interfaces, r, s, n - 1);
      assert FirstFitAt(subnet, interfaces, r, n - 1) && FirstFitAt(subnet, interfaces, s, n - 1);
      assert r[n - 1] == s[n - 1];
      assert r[..n] == r[..n - 1] + [r[n - 1]] && s[..n] == s[..n - 1] + [s[n - 1]];
    }
  }

  /** Allocation does not depend on the order in which interfaces are declared. */
  lemma {:induction false} AllocationForgetsOrder(subnet: Subnet, declared: seq<Interface>, other: seq<Interface>,
                                                  r: seq<Option<nat>>, s: seq<Option<nat>>)
    requires multiset(declared) == multiset(other)
    requires DistinctNames(declared, (i: Interface) => i.name) && DistinctNames(other, (i: Interface) => i.name)
    requires FirstFit(subnet, SortByName(declared, (i: Interface) => i.name), r)
    requires FirstFit(subnet, SortByName(other, (i: Interface) => i.name), s)
    ensures r == s
  {
    SortForgetsOrder(declared, other, (i: Interface) => i.name);
    FirstFitUnique(subnet, SortByName(declared, (i: Interface) => i.name), r, s, |r|);
    assert r[..|r|] == r && s[..|r|] == s;
  }

  lemma {:induction false} AskedExact(interfaces: seq<Interface>, address: nat)
    ensures address in Asked(interfaces)
            <==> exists i :: 0 <= i < |interfaces| && interfaces[i].setting == Explicit(address)
  {
    if interfaces != [] {
      var n := |interfaces| - 1;
      AskedExact(interfaces[..n], address);
      assert interfaces == interfaces[..n] + [interfaces[n]];
    }
  }

  /** Distinct answers: no two interfaces share an address, and every address is usable. */
  lemma {:induction false} FirstFitDistinct(subnet: Subnet, interfaces: seq<Interface>, r: seq<Option<nat>>, i: nat,
                                            j: nat)
    requires ExplicitValid(subnet, interfaces) && FirstFit(subnet, interfaces, r)
    requires i < j < |r| && r[i].Some? && r[j].Some?
    ensures r[i] != r[j] && Usable(subnet, r[i].value) && Usable(subnet, r[j].value)
  {
    assert FirstFitAt(subnet, interfaces, r, i) && FirstFitAt(subnet, interfaces, r, j);
    assert r[..j][i] == r[i];
    assert r[i].value in Given(r[..j]);
    AskedExact(interfaces, r[i].value);
    AskedExact(interfaces, r[j].value);
  }

  // ------------------------------------------------------------------ counting

  lemma {:induction false} AskedCount(subnet: Subnet, interfaces: seq<Interface>)
    requires ExplicitValid(subnet, interfaces)
    ensures |Asked(interfaces)| == ExplicitCount(interfaces)
    ensures forall a :: a in Asked(interfaces) ==> Usable(subnet, a)
  {
    if interfaces != [] {
      var n := |interfaces| - 1;
      AskedCount(subnet, interfaces[..n]);
      if interfaces[n].setting.Explicit? {
        AskedExact(interfaces[..n], interfaces[n].setting.address);
      }
    }
  }

  /** The addresses strictly between `lo` and `hi`. */
  function Between(lo: nat, hi: nat): (s: set<nat>)
    ensures forall a: nat :: a in s <==> lo < a < hi
    decreases hi
  {
    if hi <= lo + 1 then {} else Between(lo, hi - 1) + {hi - 1}
  }

  lemma {:induction false} BetweenCount(lo: nat, hi: nat)
    ensures |Between(lo, hi)| == if lo + 1 < hi then hi - lo - 1 else 0
    decreases hi
  {
    if lo + 1 < hi {
      BetweenCount(lo, hi - 1);
    }
  }

  lemma {:induction false} Fits(subnet: Subnet, used: set<nat>)
    requires forall a :: a in used ==> Usable(subnet, a)
    ensures |used| <= UsableCount(subnet)
    ensures (forall a: nat :: Usable(subnet, a) ==> a in used) ==> |used| == UsableCount(subnet)
  {
    var all := Between(subnet.network, subnet.broadcast);
    BetweenCount(subnet.network, subnet.broadcast);
    SubsetCount(used, all);
    if forall a: nat :: Usable(subnet, a) ==> a in used {
      assert used == all;
    }
  }

  // ----------------------------------------------------------------- allocation

  /** Reserves the addresses that interfaces ask for, or reports the first that cannot be had. */
  method ReserveExplicit(subnet: Subnet, interfaces: seq<Interface>) returns (r: Result<set<nat>, AddressError>)
    ensures r.Ok? <==> ExplicitValid(subnet, interfaces)
    ensures r.Ok? ==> r.value == Asked(interfaces)
    ensures r.Err? ==> r.error != Exhausted
  {
    var used: set<nat> := {};
    for i := 0 to |interfaces|
      invariant ExplicitValid(subnet, interfaces[..i])
      invariant used == Asked(interfaces[..i])
    {
      assert interfaces[..i + 1][..i] == interfaces[..i];
      var setting := interfaces[i].setting;
      if setting.Explicit? {
        AskedExact(interfaces[..i], setting.address);
        if !(subnet.network <= setting.address <= subnet.broadcast) {
          return Err(OutsideSubnet);
        }
        if setting.address == subnet.network || setting.address == subnet.broadcast {
          return Err(ReservedAddress);
        }
        if setting.address in used {
          return Err(SharedAddress);
        }
        used := used + {setting.address};
      }
    }
    assert interfaces[..|interfaces|] == interfaces;
    r := Ok(used);
  }

  /**
   * Allocates every address, first fit. It fails exactly when an explicit address is
   * invalid or taken twice, or when more addresses are needed than the subnet has.
   */
  method AllocateAddresses(subnet: Subnet, interfaces: seq<Interface>)
    returns (r: Result<seq<Option<nat>>, AddressError>)
    ensures r.Ok? <==> ExplicitValid(subnet, interfaces)
                       && ExplicitCount(interfaces) + AutoCount(interfaces) <= UsableCount(subnet)
    ensures r.Ok? ==> FirstFit(subnet, interfaces, r.value)
    ensures r == Err(Exhausted) <==> ExplicitValid(subnet, interfaces)
                                     && ExplicitCount(interfaces) + AutoCount(interfaces) > UsableCount(subnet)
  {
    var reserved := ReserveExplicit(subnet, interfaces);
    if reserved.Err? {
      return Err(reserved.error);
    }
    AskedCount(subnet, interfaces);
    var used: set<nat> := reserved.value;
    var candidate: nat := subnet.network + 1;
    var result: seq<Option<nat>> := [];
    for i := 0 to |interfaces|
      invariant |result| == i && Allocating(subnet, interfaces, result, used, candidate)
    {
      AutoGrows(interfaces, i + 1);
      assert interfaces[..i + 1][..i] == interfaces[..i];
      match interfaces[i].setting {
        case NoAddress =>
          KeepsAllocating(subnet, interfaces, result, used, candidate, None);
          result := result + [None];
        case Explicit(address) =>
          AskedExact(interfaces, address);
          KeepsAllocating(subnet, interfaces, result, used, candidate, Some(address));
          result := result + [Some(address)];
        case Auto =>
          candidate := NextFree(subnet, used, candidate);
          if candidate >= subnet.broadcast {
            Fits(subnet, used);
            return Err(Exhausted);
          }
          GivesCandidate(subnet, interfaces, result, used, candidate);
          result := result + [Some(candidate)];
          used := used + {candidate};
          candidate := candidate + 1;
      }
    }
    assert interfaces[..|interfaces|] == interfaces;
    Fits(subnet, used);
    r := Ok(result);
  }

  /** The state of the allocation loop: every address below the candidate is in use. */
  ghost predicate Allocating(subnet: Subnet, interfaces: seq<Interface>, result: seq<Option<nat>>, used: set<nat>,
                             candidate: nat)
  {
    && |result| <= |interfaces|
    && (forall k :: 0 <= k < |result| ==> FirstFitAt(subnet, interfaces, result, k))
    && InUse(subnet, interfaces, result, used, candidate)
  }

  ghost predicate InUse(subnet: Subnet, interfaces: seq<Interface>, result: seq<Option<nat>>, used: set<nat>,
                        candidate: nat)
    requires |result| <= |interfaces|
  {
    && used == Asked(interfaces) + Given(result)
    && candidate > subnet.network && (forall a: nat :: subnet.network < a < candidate ==> a in used)
    && (forall a :: a in used ==> Usable(subnet, a))
    && |used| == ExplicitCount(interfaces) + AutoCount(interfaces[..|result|])
  }

  lemma {:induction false} KeepsAllocating(subnet: Subnet, interfaces: seq<Interface>, result: seq<Option<nat>>,
                                           used: set<nat>, candidate: nat,
                        next: Option<nat>)
    requires |result| < |interfaces| && Allocating(subnet, interfaces, result, used, candidate)
    requires !interfaces[|result|].setting.Auto? && (interfaces[|result|].setting.Explicit? <==> next.Some?)
    requires next.Some? ==> next.value == interfaces[|result|].setting.address && next.value in Asked(interfaces)
    ensures Allocating(subnet, interfaces, result + [next], used, candidate)
  {
    var n := |result|;
    assert interfaces[..n + 1][..n] == interfaces[..n];
    GivenGrows(result, next);
    StillFirstFit(subnet, interfaces, result, next);
    assert FirstFitAt(subnet, interfaces, result + [next], n);
  }

  lemma {:induction false} GivesCandidate(subnet: Subnet, interfaces: seq<Interface>, result: seq<Option<nat>>,
                                          used: set<nat>, candidate: nat)
    requires |result| < |interfaces| && interfaces[|result|].setting.Auto?
    requires Allocating(subnet, interfaces, result, used, candidate)
    requires candidate < subnet.broadcast && candidate !in used
    ensures Allocating(subnet, interfaces, result + [Some(candidate)], used + {candidate}, candidate + 1)
  {
    StillFirstFit(subnet, interfaces, result, Some(candidate));
    CandidateFits(subnet, interfaces, result, used, candidate);
    CandidateInUse(subnet, interfaces, result, used, candidate);
  }

  lemma {:induction false} CandidateFits(subnet: Subnet, interfaces: seq<Interface>, result: seq<Option<nat>>,
                                         used: set<nat>, candidate: nat)
    requires |result| < |interfaces| && interfaces[|result|].setting.Auto?
    requires InUse(subnet, interfaces, result, used, candidate)
    requires candidate < subnet.broadcast && candidate !in used
    ensures FirstFitAt(subnet, interfaces, result + [Some(candidate)], |result|)
  {
    var grown := result + [Some(candidate)];
    assert grown[..|result|] == result;
    forall a: nat | Usable(subnet, a) && a < candidate
      ensures a in Asked(interfaces) || a in Given(grown[..|result|])
    {
      assert a in used;
    }
  }

  lemma {:induction false} CandidateInUse(subnet: Subnet, interfaces: seq<Interface>, result: seq<Option<nat>>,
                                          used: set<nat>, candidate: nat)
    requires |result| < |interfaces| && interfaces[|result|].setting.Auto?
    requires InUse(subnet, interfaces, result, used, candidate)
    requires candidate < subnet.broadcast && candidate !in used
    ensures InUse(subnet, interfaces, result + [Some(candidate)], used + {candidate}, candidate + 1)
  {
    assert interfaces[..|result| + 1][..|result|] == interfaces[..|result|];
    GivenGrows(result, Some(candidate));
  }

  /** Skips the addresses in use. */
  method NextFree(subnet: Subnet, used: set<nat>, from: nat) returns (candidate: nat)
    ensures candidate >= from && forall a :: from <= a < candidate ==> a in used
    ensures candidate < subnet.broadcast ==> candidate !in used
    ensures candidate >= subnet.broadcast ==> forall a :: from <= a < subnet.broadcast ==> a in used
  {
    candidate := from;
    while candidate < subnet.broadcast && candidate in used
      invariant candidate >= from && forall a :: from <= a < candidate ==> a in used
      decreases subnet.broadcast - candidate
    {
      candidate := candidate + 1;
    }
  }

  lemma {:induction false} GivenGrows(result: seq<Option<nat>>, next: Option<nat>)
    ensures Given(result + [next]) == Given(result) + if next.Some? then {next.value} else {}
  {
    var grown := result + [next];
    forall a | a in Given(result)
      ensures a in Given(grown)
    {
      var k :| 0 <= k < |result| && result[k] == Some(a);
      assert grown[k] == Some(a);
    }
    if next.Some? {
      assert grown[|result|] == next;
    }
  }

  lemma {:induction false} StillFirstFit(subnet: Subnet, interfaces: seq<Interface>, result: seq<Option<nat>>,
                                         next: Option<nat>)
    requires |result| < |interfaces|
    requires forall k :: 0 <= k < |result| ==> FirstFitAt(subnet, interfaces, result, k)
    ensures forall k :: 0 <= k < |result| ==> FirstFitAt(subnet, interfaces, result + [next], k)
  {
    var grown := result + [next];
    forall k | 0 <= k < |result|
      ensures FirstFitAt(subnet, interfaces, grown, k)
    {
      assert FirstFitAt(subnet, interfaces, result, k);
      assert grown[..k] == result[..k];
    }
  }

  lemma {:induction false} AutoGrows(interfaces: seq<Interface>, n: nat)
    requires n <= |interfaces|
    ensures AutoCount(interfaces[..n]) <= AutoCount(interfaces)
    decreases |interfaces|
  {
    if n < |interfaces| {
      AutoGrows(interfaces[..|interfaces| - 1], n);
      assert interfaces[..|interfaces| - 1][..n] == interfaces[..n];
    } else {
      assert interfaces[..n] == interfaces;
    }
  }
}
