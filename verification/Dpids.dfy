/** Datapath ids of switches: mininet_ai/compiler/compiler.py, `_allocate_switch_dpids`. */
module Dpids {
  import opened Basics
  import opened Sorting

  /** The largest 64-bit datapath id. */
  const MAXIMUM: nat := 0xFFFF_FFFF_FFFF_FFFF

  datatype Switch = Switch(name: string, dpid: Option<nat>)

  datatype DpidError = SharedDpid(first: string, second: string)

  // ---------------------------------------------------------------- fixed ids

  predicate Digit(c: char) {
    '0' <= c <= '9'
  }

  predicate Digits(s: string) {
    s != "" && forall i :: 0 <= i < |s| ==> Digit(s[i])
  }

  function Decimal(s: string): nat
    requires forall i :: 0 <= i < |s| ==> Digit(s[i])
  {
    if s == "" then 0
    else
      assert Digit(s[|s| - 1]);
      10 * Decimal(s[..|s| - 1]) + (s[|s| - 1] as int - '0' as int)
  }

  /** The id a switch must keep: its declared one, or the number in a name such as `s7`. */
  function Fixed(switch: Switch): Option<nat> {
    if switch.dpid.Some? then switch.dpid
    else if |switch.name| > 1 && switch.name[0] == 's' && Digits(switch.name[1..])
            && 0 < Decimal(switch.name[1..]) <= MAXIMUM then Some(Decimal(switch.name[1..]))
    else None
  }

  ghost predicate Declarable(switches: seq<Switch>) {
    forall s :: s in switches && s.dpid.Some? ==> 0 < s.dpid.value <= MAXIMUM
  }

  /** The fixed ids of all switches, in order. */
  function FixedList(switches: seq<Switch>): (fixed: seq<Option<nat>>)
    ensures |fixed| == |switches|
  {
    seq(|switches|, i requires 0 <= i < |switches| => Fixed(switches[i]))
  }

  ghost predicate FixedDistinct(fixed: seq<Option<nat>>) {
    forall i, j :: 0 <= i < j < |fixed| && fixed[i].Some? ==> fixed[i] != fixed[j]
  }

  // ------------------------------------------------------------------- probing

  /** The id tried after `value`, wrapping round to one. */
  function Next(value: nat): nat {
    value % MAXIMUM + 1
  }

  lemma {:induction false} NextStep(value: nat)
    requires 0 < value <= MAXIMUM
    ensures Next(value) == if value == MAXIMUM then 1 else value + 1
  {
  }

  function Probe(start: nat, d: nat): nat {
    if d == 0 then start else Next(Probe(start, d - 1))
  }

  lemma {:induction false} ProbeAt(start: nat, d: nat)
    requires 0 < start <= MAXIMUM && d < MAXIMUM
    ensures Probe(start, d) == if start + d <= MAXIMUM then start + d else start + d - MAXIMUM
  {
    if d > 0 {
      ProbeAt(start, d - 1);
      NextStep(Probe(start, d - 1));
    }
  }

  /** The ids tried before the `d`-th. */
  function Tried(start: nat, d: nat): set<nat> {
    if d == 0 then {} else Tried(start, d - 1) + {Probe(start, d - 1)}
  }

  lemma {:induction false} TriedBounds(start: nat, d: nat, x: nat)
    requires 0 < start <= MAXIMUM && d < MAXIMUM && x in Tried(start, d)
    ensures exists k: nat :: k < d && x == Probe(start, k)
  {
    if x != Probe(start, d - 1) {
      TriedBounds(start, d - 1, x);
    }
  }

  /** The first probes, up to the maximum, never repeat an id. */
  lemma {:induction false} TriedCount(start: nat, d: nat)
    requires 0 < start <= MAXIMUM && d <= MAXIMUM
    ensures |Tried(start, d)| == d
  {
    if d > 0 {
      TriedCount(start, d - 1);
      if Probe(start, d - 1) in Tried(start, d - 1) {
        TriedBounds(start, d - 1, Probe(start, d - 1));
        var k: nat :| k < d - 1 && Probe(start, d - 1) == Probe(start, k);
        ProbeAt(start, d - 1);
        ProbeAt(start, k);
      }
    }
  }

  /** The first free id from a start. */
  method FirstFree(start: nat, owners: set<nat>) returns (value: nat, ghost d: nat)
    requires 0 < start <= MAXIMUM && |owners| < MAXIMUM
    ensures value == Probe(start, d) && value !in owners && 0 < value <= MAXIMUM
    ensures forall k: nat :: k < d ==> Probe(start, k) in owners
  {
    value, d := start, 0;
    while value in owners
      invariant d <= |owners| && value == Probe(start, d) && Tried(start, d) <= owners
      invariant 0 < value <= MAXIMUM
      invariant forall k: nat :: k < d ==> Probe(start, k) in owners
      decreases |owners| - d
    {
      TriedCount(start, d + 1);
      SubsetCount(Tried(start, d + 1), owners);
      NextStep(value);
      value, d := value % MAXIMUM + 1, d + 1;
    }
  }

  // ---------------------------------------------------------------- allocation

  function FixedIds(fixed: seq<Option<nat>>): set<nat> {
    if fixed == [] then {}
    else
      var last := fixed[|fixed| - 1];
      FixedIds(fixed[..|fixed| - 1]) + if last.Some? then {last.value} else {}
  }

  /** The ids given to the first switches that had no fixed one. */
  function ProbedIds(fixed: seq<Option<nat>>, result: seq<nat>): set<nat>
    requires |result| <= |fixed|
  {
    if result == [] then {}
    else
      var n := |result| - 1;
      ProbedIds(fixed, result[..n]) + if fixed[n].None? then {result[n]} else {}
  }

  /** The owners when a switch is probed: all fixed ids and those given before. */
  function Owners(fixed: seq<Option<nat>>, result: seq<nat>): set<nat>
    requires |result| <= |fixed|
  {
    FixedIds(fixed) + ProbedIds(fixed, result)
  }

  ghost predicate FirstProbe(start: nat, owners: set<nat>, d: nat, value: nat) {
    value == Probe(start, d) && value !in owners && forall k: nat :: k < d ==> Probe(start, k) in owners
  }

  ghost predicate IsFirstProbe(start: nat, owners: set<nat>, value: nat) {
    exists d: nat :: FirstProbe(start, owners, d, value)
  }

  /** Switch `i` keeps its fixed id, or gets the first id from its start that is not owned. */
  ghost predicate Placed(fixed: seq<Option<nat>>, starts: seq<nat>, result: seq<nat>, i: nat)
    requires i < |result| <= |fixed| == |starts|
  {
    if fixed[i].Some? then result[i] == fixed[i].value
    else IsFirstProbe(starts[i], Owners(fixed, result[..i]), result[i])
  }

  ghost predicate AllPlaced(fixed: seq<Option<nat>>, starts: seq<nat>, result: seq<nat>) {
    && |result| == |fixed| == |starts|
    && forall i :: 0 <= i < |fixed| ==> Placed(fixed, starts, result, i)
  }

  /** Probing starts at the hash of the name, or at one if that is zero. */
  function Start(switch: Switch, hash: string -> nat): nat {
    if hash(switch.name) == 0 then 1 else hash(switch.name)
  }

  function Starts(switches: seq<Switch>, hash: string -> nat): (starts: seq<nat>)
    ensures |starts| == |switches|
  {
    seq(|switches|, i requires 0 <= i < |switches| => Start(switches[i], hash))
  }

  ghost predicate Allocated(switches: seq<Switch>, hash: string -> nat, result: seq<nat>) {
    AllPlaced(FixedList(switches), Starts(switches, hash), result)
  }

  lemma {:induction false} FixedIdsExact(fixed: seq<Option<nat>>, v: nat)
    ensures v in FixedIds(fixed) <==> exists k :: 0 <= k < |fixed| && fixed[k] == Some(v)
  {
    if fixed != [] {
      var n := |fixed| - 1;
      FixedIdsExact(fixed[..n], v);
      assert fixed == fixed[..n] + [fixed[n]];
    }
  }

  lemma {:induction false} ProbedIdAt(fixed: seq<Option<nat>>, result: seq<nat>, i: nat)
    requires i < |result| <= |fixed| && fixed[i].None?
    ensures result[i] in ProbedIds(fixed, result)
    decreases |result|
  {
    var n := |result| - 1;
    if i < n {
      ProbedIdAt(fixed, result[..n], i);
    }
  }

  /** No two switches share an id. */
  lemma {:induction false} PlacedDistinct(fixed: seq<Option<nat>>, starts: seq<nat>, result: seq<nat>, i: nat, j: nat)
    requires FixedDistinct(fixed) && AllPlaced(fixed, starts, result) && i < j < |fixed|
    ensures result[i] != result[j]
  {
    assert Placed(fixed, starts, result, i) && Placed(fixed, starts, result, j);
    FixedIdsExact(fixed, result[i]);
    FixedIdsExact(fixed, result[j]);
    if fixed[i].None? {
      ProbedIdAt(fixed, result[..j], i);
    }
  }

  lemma {:induction false} OneFirstProbe(start: nat, owners: set<nat>, v: nat, w: nat)
    requires IsFirstProbe(start, owners, v) && IsFirstProbe(start, owners, w)
    ensures v == w
  {
    var d: nat :| FirstProbe(start, owners, d, v);
    var e: nat :| FirstProbe(start, owners, e, w);
    assert d < e ==> Probe(start, d) in owners;
    assert e < d ==> Probe(start, e) in owners;
  }

  /** The placement is determined by the sorted switches and the hash. */
  lemma {:induction false} PlacedUnique(fixed: seq<Option<nat>>, starts: seq<nat>, r: seq<nat>, s: seq<nat>, n: nat)
    requires AllPlaced(fixed, starts, r) && AllPlaced(fixed, starts, s) && n <= |fixed|
    ensures r[..n] == s[..n]
  {
    if n > 0 {
      var i := n - 1;
      PlacedUnique(fixed, starts, r, s, i);
      assert Placed(fixed, starts, r, i) && Placed(fixed, starts, s, i);
      if fixed[i].None? {
        OneFirstProbe(starts[i], Owners(fixed, r[..i]), r[i], s[i]);
      }
      assert r[..n] == r[..i] + [r[i]] && s[..n] == s[..i] + [s[i]];
    }
  }

  /** Datapath ids do not depend on the order in which switches are declared. */
  lemma {:induction false} DpidsForgetOrder(declared: seq<Switch>, other: seq<Switch>,
                                            hash: string -> nat, r: seq<nat>, s: seq<nat>)
    requires multiset(declared) == multiset(other)
    requires DistinctNames(declared, (w: Switch) => w.name) && DistinctNames(other, (w: Switch) => w.name)
    requires Allocated(SortByName(declared, (w: Switch) => w.name), hash, r)
    requires Allocated(SortByName(other, (w: Switch) => w.name), hash, s)
    ensures r == s
  {
    var switches := SortByName(declared, (w: Switch) => w.name);
    SortForgetsOrder(declared, other, (w: Switch) => w.name);
    PlacedUnique(FixedList(switches), Starts(switches, hash), r, s, |r|);
    assert r[..|r|] == r && s[..|r|] == s;
  }

  /** How many of the switches from `i` on have no fixed id. */
  function Unfixed(fixed: seq<Option<nat>>, i: nat): (n: nat)
    requires i <= |fixed|
    ensures n <= |fixed| - i
    decreases |fixed| - i
  {
    if i == |fixed| then 0 else Unfixed(fixed, i + 1) + if fixed[i].None? then 1 else 0
  }

  lemma {:induction false} TakeFixed(fixed: seq<Option<nat>>, i: nat)
    requires i < |fixed|
    ensures FixedIds(fixed[..i + 1]) == FixedIds(fixed[..i]) + if fixed[i].Some? then {fixed[i].value} else {}
    ensures FixedDistinct(fixed[..i]) && (fixed[i].Some? ==> fixed[i].value !in FixedIds(fixed[..i])) ==>
              FixedDistinct(fixed[..i + 1])
  {
    assert fixed[..i + 1][..i] == fixed[..i];
    if fixed[i].Some? {
      FixedIdsExact(fixed[..i], fixed[i].value);
      assert forall k :: 0 <= k < i ==> fixed[..i][k] == fixed[k];
    }
  }

  lemma {:induction false} RepeatedFixed(fixed: seq<Option<nat>>, i: nat)
    requires i < |fixed| && fixed[i].Some? && fixed[i].value in FixedIds(fixed[..i])
    ensures !FixedDistinct(fixed)
  {
    FixedIdsExact(fixed[..i], fixed[i].value);
    var k :| 0 <= k < i && fixed[..i][k] == fixed[i];
    assert fixed[k] == fixed[i];
  }

  /** Reserves every fixed id, or reports the first one that two switches share. */
  method ReserveFixed(fixed: seq<Option<nat>>, names: seq<string>) returns (r: Result<map<nat, string>, DpidError>)
    requires |names| == |fixed|
    ensures r.Ok? <==> FixedDistinct(fixed)
    ensures r.Ok? ==> r.value.Keys == FixedIds(fixed) && |r.value.Keys| + Unfixed(fixed, 0) <= |fixed|
  {
    var owners: map<nat, string> := map[];
    for i := 0 to |fixed|
      invariant owners.Keys == FixedIds(fixed[..i]) && FixedDistinct(fixed[..i])
      invariant |owners.Keys| + Unfixed(fixed, 0) - Unfixed(fixed, i) <= i
    {
      TakeFixed(fixed, i);
      if fixed[i].Some? {
        if fixed[i].value in owners {
          RepeatedFixed(fixed, i);
          return Err(SharedDpid(owners[fixed[i].value], names[i]));
        }
        owners := Claim(owners, fixed[i].value, names[i]);
      }
    }
    assert fixed[..|fixed|] == fixed;
    r := Ok(owners);
  }

  function Claim(owners: map<nat, string>, value: nat, name: string): (claimed: map<nat, string>)
    ensures claimed.Keys == owners.Keys + {value} && |claimed.Keys| <= |owners.Keys| + 1
  {
    assert owners[value := name].Keys == owners.Keys + {value};
    owners[value := name]
  }

  /** Allocates every id, and fails exactly when two fixed ids clash. */
  method AllocateDpids(switches: seq<Switch>, hash: string -> nat) returns (r: Result<seq<nat>, DpidError>)
    requires Declarable(switches) && |switches| <= MAXIMUM
    requires forall name :: hash(name) <= MAXIMUM
    ensures r.Ok? <==> FixedDistinct(FixedList(switches))
    ensures r.Ok? ==> Allocated(switches, hash, r.value)
    ensures r.Ok? ==> forall i :: 0 <= i < |r.value| ==> 0 < r.value[i] <= MAXIMUM
  {
    var fixed, starts := FixedList(switches), Starts(switches, hash);
    var reserved := ReserveFixed(fixed, seq(|switches|, i requires 0 <= i < |switches| => switches[i].name));
    if reserved.Err? {
      return Err(reserved.error);
    }
    forall i | 0 <= i < |fixed| && fixed[i].Some?
      ensures 0 < fixed[i].value <= MAXIMUM
    {
      assert switches[i] in switches;
    }
    var result := ProbeRest(fixed, starts, reserved.value.Keys);
    r := Ok(result);
  }

  method ProbeRest(fixed: seq<Option<nat>>, starts: seq<nat>, reserved: set<nat>) returns (result: seq<nat>)
    requires |starts| == |fixed| <= MAXIMUM
    requires reserved == FixedIds(fixed) && |reserved| + Unfixed(fixed, 0) <= |fixed|
    requires forall i :: 0 <= i < |fixed| && fixed[i].Some? ==> 0 < fixed[i].value <= MAXIMUM
    requires forall i :: 0 <= i < |fixed| ==> 0 < starts[i] <= MAXIMUM
    ensures AllPlaced(fixed, starts, result)
    ensures forall i :: 0 <= i < |result| ==> 0 < result[i] <= MAXIMUM
  {
    var owners := reserved;
    result := [];
    for i := 0 to |fixed|
      invariant |result| == i && owners == Owners(fixed, result)
      invariant |owners| + Unfixed(fixed, i) <= |fixed|
      invariant forall k :: 0 <= k < i ==> 0 < result[k] <= MAXIMUM
      invariant forall k :: 0 <= k < i ==> Placed(fixed, starts, result, k)
    {
      var value: nat;
      if fixed[i].Some? {
        value := fixed[i].value;
      } else {
        ghost var d: nat;
        value, d := FirstFree(starts[i], owners);
        assert FirstProbe(starts[i], owners, d, value);
        owners := owners + {value};
      }
      PlaceNext(fixed, starts, result, value);
      result := result + [value];
    }
  }

  lemma {:induction false} PlaceNext(fixed: seq<Option<nat>>, starts: seq<nat>, result: seq<nat>, next: nat)
    requires |result| < |fixed| == |starts|
    requires forall k :: 0 <= k < |result| ==> Placed(fixed, starts, result, k)
    requires if fixed[|result|].Some? then next == fixed[|result|].value
             else IsFirstProbe(starts[|result|], Owners(fixed, result), next)
    ensures forall k :: 0 <= k <= |result| ==> Placed(fixed, starts, result + [next], k)
    ensures Owners(fixed, result + [next]) == Owners(fixed, result) + if fixed[|result|].None? then {next} else {}
  {
    var grown := result + [next];
    assert grown[..|result|] == result;
    forall i | 0 <= i <= |result|
      ensures Placed(fixed, starts, grown, i)
    {
      if i < |result| {
        assert Placed(fixed, starts, result, i);
        assert grown[..i] == result[..i];
      }
    }
  }
}
