/**
 * The numbers and names of a switch's ports: mininet_ai/compiler/compiler.py,
 * `_declare_adapters` and `_create_automatic_adapter`.
 */
module Ports {
  import opened Basics

  datatype PortError = DuplicateNumbers

  /** The numbers that ports ask for, in order. */
  function ExplicitList(ports: seq<Option<nat>>): seq<nat> {
    if ports == [] then []
    else
      var last := ports[|ports| - 1];
      ExplicitList(ports[..|ports| - 1]) + if last.Some? then [last.value] else []
  }

  function ExplicitNumbers(ports: seq<Option<nat>>): set<nat> {
    Elements(ExplicitList(ports))
  }

  ghost predicate ExplicitDistinct(ports: seq<Option<nat>>) {
    forall i, j :: 0 <= i < j < |ports| && ports[i].Some? ==> ports[i] != ports[j]
  }

  lemma {:induction false} ExplicitExact(ports: seq<Option<nat>>, n: nat)
    ensures n in ExplicitNumbers(ports) <==> exists k :: 0 <= k < |ports| && ports[k] == Some(n)
  {
    if ports != [] {
      ExplicitExact(ports[..|ports| - 1], n);
      assert ports == ports[..|ports| - 1] + [ports[|ports| - 1]];
    }
  }

  lemma {:induction false} ExplicitDistinctSplit(ports: seq<Option<nat>>)
    requires ports != []
    ensures var n := |ports| - 1;
            ExplicitDistinct(ports)
            <==> ExplicitDistinct(ports[..n]) && (ports[n].Some? ==> ports[n].value !in ExplicitNumbers(ports[..n]))
  {
    var n := |ports| - 1;
    if ports[n].Some? {
      ExplicitExact(ports[..n], ports[n].value);
      assert ports[n].value in ExplicitNumbers(ports[..n]) <==> exists k :: 0 <= k < n && ports[k] == ports[n];
    }
    if ExplicitDistinct(ports) {
      assert forall i, j :: 0 <= i < j < n && ports[..n][i].Some? ==> ports[i] != ports[j];
    }
  }

  lemma {:induction false} ExplicitListDistinct(ports: seq<Option<nat>>)
    ensures Distinct(ExplicitList(ports)) <==> ExplicitDistinct(ports)
  {
    if ports != [] {
      var n := |ports| - 1;
      ExplicitListDistinct(ports[..n]);
      ExplicitDistinctSplit(ports);
      if ports[n].Some? {
        LastRepeats(ExplicitList(ports[..n]), ports[n].value);
        assert ExplicitList(ports) == ExplicitList(ports[..n]) + [ports[n].value];
      } else {
        assert ExplicitList(ports) == ExplicitList(ports[..n]);
      }
    }
  }

  lemma {:induction false} LastRepeats(xs: seq<nat>, x: nat)
    ensures Distinct(xs + [x]) <==> Distinct(xs) && x !in xs
  {
    var longer := xs + [x];
    if Distinct(longer) {
      forall i, j | 0 <= i < j < |xs|
        ensures xs[i] != xs[j]
      {
        assert longer[i] != longer[j];
      }
      forall i | 0 <= i < |xs|
        ensures xs[i] != x
      {
        assert longer[i] != longer[|xs|];
      }
    }
  }

  // ------------------------------------------------------------- unused numbers

  /** The least unused number from `from`; only finitely many are used. */
  ghost function LeastUnused(from: nat, used: set<nat>): (number: nat)
    ensures number >= from && number !in used && forall n :: from <= n < number ==> n in used
    decreases |set n | n in used && n >= from|
  {
    if from !in used then from
    else
      assert (set n | n in used && n >= from) == (set n | n in used && n >= from + 1) + {from};
      LeastUnused(from + 1, used)
  }

  lemma {:induction false} LeastUnusedIs(from: nat, used: set<nat>, number: nat)
    requires number >= from && number !in used && forall n :: from <= n < number ==> n in used
    ensures number == LeastUnused(from, used)
  {
    var least := LeastUnused(from, used);
    assert !(least < number) && !(number < least);
  }

  method NextUnused(from: nat, used: set<nat>) returns (number: nat)
    ensures number == LeastUnused(from, used)
  {
    number := from;
    ghost var above := set n | n in used && n >= from;
    while number in used
      invariant number >= from && forall n :: from <= n < number ==> n in used
      invariant above == set n | n in used && n >= number
      decreases |above|
    {
      ghost var rest := set n | n in used && n >= number + 1;
      assert above == rest + {number} && number !in rest;
      number, above := number + 1, rest;
    }
    LeastUnusedIs(from, used, number);
  }

  // -------------------------------------------------------------- given numbers

  /** The first `k` numbers: a port keeps its own, or gets the least positive one that is neither explicit nor given. */
  ghost function Given(ports: seq<Option<nat>>, k: nat): (numbers: seq<nat>)
    requires k <= |ports|
    ensures |numbers| == k
  {
    if k == 0 then []
    else Given(ports, k - 1) + [GivenNext(ports, Given(ports, k - 1), ports[k - 1])]
  }

  ghost function GivenNext(ports: seq<Option<nat>>, before: seq<nat>, port: Option<nat>): nat {
    if port.Some? then port.value else LeastUnused(1, ExplicitNumbers(ports) + Elements(before))
  }

  ghost function Numbers(ports: seq<Option<nat>>): (numbers: seq<nat>)
    ensures |numbers| == |ports|
  {
    Given(ports, |ports|)
  }

  lemma {:induction false} GivenGrows(ports: seq<Option<nat>>, j: nat, k: nat)
    requires j <= k <= |ports|
    ensures Given(ports, k)[..j] == Given(ports, j)
  {
    if j < k {
      GivenGrows(ports, j, k - 1);
      assert Given(ports, k)[..j] == Given(ports, k - 1)[..j];
    }
  }

  lemma {:induction false} PortNumberAt(ports: seq<Option<nat>>, k: nat)
    requires k < |ports|
    ensures Numbers(ports)[..k] == Given(ports, k)
    ensures Numbers(ports)[k] == GivenNext(ports, Given(ports, k), ports[k])
  {
    GivenGrows(ports, k, |ports|);
    GivenGrows(ports, k + 1, |ports|);
    assert Numbers(ports)[k] == Given(ports, k + 1)[k];
  }

  /** The numbers of one switch differ exactly when those that its ports ask for do. */
  lemma {:induction false} NumbersDistinct(ports: seq<Option<nat>>)
    ensures Distinct(Numbers(ports)) <==> ExplicitDistinct(ports)
  {
    var numbers := Numbers(ports);
    forall i, j | 0 <= i < j < |ports| && (ports[i].None? || ports[j].None?)
      ensures numbers[i] != numbers[j]
    {
      PortNumberAt(ports, i);
      PortNumberAt(ports, j);
      assert numbers[..j][i] == numbers[i] && numbers[i] in Elements(numbers[..j]);
      ExplicitExact(ports, numbers[i]);
      ExplicitExact(ports, numbers[j]);
    }
    forall i | 0 <= i < |ports| && ports[i].Some?
      ensures numbers[i] == ports[i].value
    {
      PortNumberAt(ports, i);
    }
  }

  /** Numbers the ports of one switch; fails exactly when two ports ask for the same number. */
  method NumberPorts(ports: seq<Option<nat>>) returns (r: Result<seq<nat>, PortError>)
    ensures r.Ok? <==> ExplicitDistinct(ports)
    ensures r.Ok? ==> r.value == Numbers(ports) && Distinct(r.value)
    ensures r.Ok? ==> forall i :: 0 <= i < |ports| && ports[i].Some? ==> r.value[i] == ports[i].value
  {
    var explicit := ExplicitList(ports);
    DistinctCount(explicit);
    ExplicitListDistinct(ports);
    NumbersDistinct(ports);
    if |explicit| != |Elements(explicit)| {
      return Err(DuplicateNumbers);
    }
    var numbers := NumberRest(ports);
    forall i | 0 <= i < |ports|
      ensures ports[i].Some? ==> numbers[i] == ports[i].value
    {
      PortNumberAt(ports, i);
    }
    r := Ok(numbers);
  }

  method NumberRest(ports: seq<Option<nat>>) returns (numbers: seq<nat>)
    ensures numbers == Numbers(ports)
  {
    var used := ExplicitNumbers(ports);
    var next: nat := 1;
    numbers := [];
    for i := 0 to |ports|
      invariant numbers == Given(ports, i) && used == ExplicitNumbers(ports) + Elements(numbers)
      invariant next >= 1 && forall n :: 1 <= n < next ==> n in used
    {
      var number: nat;
      ghost var before := used;
      if ports[i].Some? {
        number := ports[i].value;
        ExplicitExact(ports, number);
      } else {
        next := NextUnused(next, used);
        number := next;
        LeastUnusedIs(1, used, number);
        used := used + {number};
        next := next + 1;
      }
      assert Elements(numbers + [number]) == Elements(numbers) + {number};
      numbers := numbers + [number];
      assert used == before + {number};
    }
  }

  // ---------------------------------------------------------------- default names

  function Digit(n: nat): char
    requires n < 10
  {
    ['0', '1', '2', '3', '4', '5', '6', '7', '8', '9'][n]
  }

  function Decimal(n: nat): (s: string)
    ensures s != []
  {
    if n < 10 then [Digit(n)] else Decimal(n / 10) + [Digit(n % 10)]
  }

  /** The default name of an adapter. */
  function AdapterName(node: string, number: nat): string {
    node + "-eth" + Decimal(number)
  }

  lemma {:induction false} DecimalDigits(n: nat)
    ensures forall c :: c in Decimal(n) ==> c != 'h'
  {
    if n >= 10 {
      DecimalDigits(n / 10);
    }
  }

  lemma {:induction false} DecimalInjective(m: nat, n: nat)
    requires Decimal(m) == Decimal(n)
    ensures m == n
  {
    var s, t := Decimal(m), Decimal(n);
    assert s[|s| - 1] == Digit(m % 10) && t[|t| - 1] == Digit(n % 10);
    assert m % 10 == n % 10;
    if m >= 10 && n >= 10 {
      assert s[..|s| - 1] == Decimal(m / 10) && t[..|t| - 1] == Decimal(n / 10);
      DecimalInjective(m / 10, n / 10);
    }
  }

  /** A suffix without an `h` does not reach the `h` before a shorter suffix. */
  lemma {:induction false} SuffixNotLonger(s: string, short: string, long: string)
    requires |short| < |s| && s[|s| - |short| - 1] == 'h'
    requires |long| <= |s| && s[|s| - |long|..] == long && forall c :: c in long ==> c != 'h'
    ensures |long| <= |short|
  {
    assert forall k :: |s| - |long| <= k < |s| ==> s[k] == s[|s| - |long|..][k - (|s| - |long|)] && s[k] in long;
  }

  /** Different adapters have different default names. */
  lemma {:induction false} NamesInjective(node: string, number: nat, other: string, m: nat)
    requires AdapterName(node, number) == AdapterName(other, m)
    ensures node == other && number == m
  {
    var s, d, e := AdapterName(node, number), Decimal(number), Decimal(m);
    DecimalDigits(number);
    DecimalDigits(m);
    assert s[|s| - |d| - 1] == 'h' && s[|s| - |e| - 1] == 'h';
    SuffixNotLonger(s, d, e);
    SuffixNotLonger(s, e, d);
    assert s[|s| - |d|..] == d && s[|s| - |e|..] == e;
    DecimalInjective(number, m);
    assert s[..|s| - |d| - 4] == node && s[..|s| - |d| - 4] == other;
  }
}
