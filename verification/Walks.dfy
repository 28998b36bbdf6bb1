/** Walks and cycles of a finite directed graph, and how long a walk can be. */
module Walks {
  import opened Basics

  /** A directed edge from the first name to the second. */
  type Arrow = (string, string)

  ghost predicate IsWalk(arrows: set<Arrow>, w: seq<string>) {
    w != [] && forall i :: 0 <= i < |w| - 1 ==> (w[i], w[i + 1]) in arrows
  }

  ghost predicate IsCycle(arrows: set<Arrow>, w: seq<string>) {
    |w| >= 2 && IsWalk(arrows, w) && w[0] == w[|w| - 1]
  }

  ghost predicate Acyclic(arrows: set<Arrow>) {
    forall w :: !IsCycle(arrows, w)
  }

  ghost predicate Within(arrows: set<Arrow>, names: set<string>) {
    forall a :: a in arrows ==> a.0 in names && a.1 in names
  }

  function Predecessors(arrows: set<Arrow>, name: string): (names: set<string>)
    ensures forall s :: s in names <==> (s, name) in arrows
  {
    set a | a in arrows && a.1 == name :: a.0
  }

  /** More entries than names means that one name comes twice. */
  lemma {:induction false} Repeats(names: set<string>, xs: seq<string>)
    requires Elements(xs) <= names && |xs| > |names|
    ensures !Distinct(xs)
  {
    if Distinct(xs) {
      DistinctCount(xs);
      SubsetCount(Elements(xs), names);
    }
  }

  /** A walk that comes back to a name contains a cycle. */
  lemma {:induction false} RepeatIsCycle(arrows: set<Arrow>, w: seq<string>)
    requires IsWalk(arrows, w) && !Distinct(w)
    ensures !Acyclic(arrows)
  {
    var i, j :| 0 <= i < j < |w| && w[i] == w[j];
    assert IsCycle(arrows, w[i..j + 1]);
  }

  /** Walking backwards, among names that all have a predecessor among themselves. */
  lemma {:induction false} WalkBackwards(arrows: set<Arrow>, rest: set<string>, n: nat) returns (w: seq<string>)
    requires rest != {} && forall a :: a in rest ==> Predecessors(arrows, a) * rest != {}
    ensures |w| == n + 1 && IsWalk(arrows, w) && Elements(w) <= rest
  {
    if n == 0 {
      var a :| a in rest;
      w := [a];
    } else {
      var tail := WalkBackwards(arrows, rest, n - 1);
      assert tail[0] in Elements(tail);
      var s :| s in Predecessors(arrows, tail[0]) * rest;
      w := [s] + tail;
      assert Elements(w) == Elements(tail) + {s};
    }
  }

  /** If every name left has a predecessor that is left too, there is a cycle. */
  lemma {:induction false} StuckMeansCycle(arrows: set<Arrow>, rest: set<string>)
    requires rest != {} && forall a :: a in rest ==> Predecessors(arrows, a) * rest != {}
    ensures !Acyclic(arrows)
  {
    var w := WalkBackwards(arrows, rest, |rest|);
    Repeats(rest, w);
    RepeatIsCycle(arrows, w);
  }

  /** Every name comes after all of its predecessors. */
  ghost predicate Topological(arrows: set<Arrow>, order: seq<string>) {
    forall j :: 0 <= j < |order| ==> ComesAfter(arrows, order, j)
  }

  ghost predicate ComesAfter(arrows: set<Arrow>, order: seq<string>, j: nat)
    requires j < |order|
  {
    Predecessors(arrows, order[j]) <= Elements(order[..j])
  }

  lemma {:induction false} WalkGoesForward(arrows: set<Arrow>, order: seq<string>, w: seq<string>, p: nat, q: nat)
    requires Topological(arrows, order) && Distinct(order) && IsWalk(arrows, w)
    requires p < |order| && order[p] == w[0] && q < |order| && order[q] == w[|w| - 1]
    ensures p <= q && (|w| >= 2 ==> p < q)
    decreases |w|
  {
    if |w| >= 2 {
      var n := |w| - 1;
      assert w[n - 1] in Predecessors(arrows, w[n]) by {
        assert (w[n - 1], w[n]) in arrows;
      }
      assert ComesAfter(arrows, order, q);
      assert w[n - 1] in Elements(order[..q]);
      var r :| 0 <= r < q && order[..q][r] == w[n - 1];
      assert w[..n][|w[..n]| - 1] == w[n - 1];
      WalkGoesForward(arrows, order, w[..n], p, r);
    }
  }

  /** A topological order of all names rules out cycles. */
  lemma {:induction false} OrderedMeansAcyclic(arrows: set<Arrow>, order: seq<string>)
    requires Topological(arrows, order) && Distinct(order) && Within(arrows, Elements(order))
    ensures Acyclic(arrows)
  {
    forall w
      ensures !IsCycle(arrows, w)
    {
      if IsCycle(arrows, w) {
        assert (w[0], w[1]) in arrows;
        assert w[0] in Elements(order);
        var p :| 0 <= p < |order| && order[p] == w[0];
        WalkGoesForward(arrows, order, w, p, p);
      }
    }
  }

  // -------------------------------------------------------------- walk lengths

  lemma {:induction false} WalkStaysWithin(arrows: set<Arrow>, names: set<string>, w: seq<string>)
    requires Within(arrows, names) && IsWalk(arrows, w) && w[0] in names
    ensures Elements(w) <= names
  {
    forall i | 0 <= i < |w|
      ensures w[i] in names
    {
      if i > 0 {
        assert (w[i - 1], w[i - 1 + 1]) in arrows;
      }
    }
  }

  /** Where a walker round a cycle of `m` edges is after `i` of them. */
  function Position(m: nat, i: nat): (p: nat)
    requires m > 0
    ensures p < m
  {
    if i == 0 then 0
    else
      var prior := Position(m, i - 1);
      if prior + 1 == m then 0 else prior + 1
  }

  /** Going round a cycle again and again. */
  function Round(w: seq<string>, n: nat): (r: seq<string>)
    requires |w| >= 2
    ensures |r| == n + 1
  {
    seq(n + 1, i requires 0 <= i => w[Position(|w| - 1, i)])
  }

  lemma {:induction false} RoundIsWalk(arrows: set<Arrow>, w: seq<string>, n: nat)
    requires IsCycle(arrows, w)
    ensures IsWalk(arrows, Round(w, n)) && Round(w, n)[0] == w[0]
  {
    forall i | 0 <= i < n
      ensures (Round(w, n)[i], Round(w, n)[i + 1]) in arrows
    {
      var k := Position(|w| - 1, i);
      assert (w[k], w[k + 1]) in arrows;
    }
  }

  /** A graph has no cycle if and only if every walk has fewer edges than there are names. */
  lemma {:induction false} AcyclicIffShortWalks(arrows: set<Arrow>, names: set<string>)
    requires Within(arrows, names)
    ensures Acyclic(arrows) <==> forall w :: IsWalk(arrows, w) && w[0] in names ==> |w| - 1 < |names|
  {
    if Acyclic(arrows) {
      forall w | IsWalk(arrows, w) && w[0] in names
        ensures |w| - 1 < |names|
      {
        WalkStaysWithin(arrows, names, w);
        if |w| > |names| {
          Repeats(names, w);
          RepeatIsCycle(arrows, w);
        }
      }
    } else {
      var w :| IsCycle(arrows, w);
      assert (w[0], w[1]) in arrows;
      RoundIsWalk(arrows, w, |names|);
    }
  }
}
