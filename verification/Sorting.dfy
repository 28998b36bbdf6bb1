/** Sorting records by name, the way the compiler makes its results independent of declaration order. */
module Sorting {

  /** Names compare character by character; a proper prefix comes first. */
  predicate Below(a: string, b: string) {
    if b == "" then false
    else if a == "" then true
    else if a[0] != b[0] then a[0] < b[0]
    else Below(a[1..], b[1..])
  }

  lemma {:induction false} BelowTransitive(a: string, b: string, c: string)
    requires Below(a, b) && Below(b, c)
    ensures Below(a, c)
  {
    if a != "" && a[0] == b[0] == c[0] {
      BelowTransitive(a[1..], b[1..], c[1..]);
    }
  }

  lemma {:induction false} BelowIrreflexive(a: string)
    ensures !Below(a, a)
  {
    if a != "" {
      BelowIrreflexive(a[1..]);
    }
  }

  lemma {:induction false} BelowTotal(a: string, b: string)
    ensures a != b ==> Below(a, b) || Below(b, a)
  {
    if a != "" && b != "" && a[0] == b[0] {
      BelowTotal(a[1..], b[1..]);
      assert a == [a[0]] + a[1..] && b == [b[0]] + b[1..];
    }
  }

  function Insert<T>(x: T, sorted: seq<T>, name: T -> string): seq<T> {
    if sorted == [] then [x]
    else if Below(name(x), name(sorted[0])) then [x] + sorted
    else [sorted[0]] + Insert(x, sorted[1..], name)
  }

  function SortByName<T>(xs: seq<T>, name: T -> string): seq<T> {
    if xs == [] then [] else Insert(xs[0], SortByName(xs[1..], name), name)
  }

  ghost predicate DistinctNames<T>(xs: seq<T>, name: T -> string) {
    forall i, j :: 0 <= i < j < |xs| ==> name(xs[i]) != name(xs[j])
  }

  ghost predicate Ascending<T>(xs: seq<T>, name: T -> string) {
    forall i, j :: 0 <= i < j < |xs| ==> Below(name(xs[i]), name(xs[j]))
  }

  lemma {:induction false} InsertElements<T>(x: T, sorted: seq<T>, name: T -> string)
    ensures multiset(Insert(x, sorted, name)) == multiset(sorted) + multiset{x}
  {
    if sorted != [] {
      InsertElements(x, sorted[1..], name);
      assert sorted == [sorted[0]] + sorted[1..];
    }
  }

  lemma {:induction false} InsertAscends<T>(x: T, sorted: seq<T>, name: T -> string)
    requires Ascending(sorted, name) && forall y :: y in sorted ==> name(y) != name(x)
    ensures Ascending(Insert(x, sorted, name), name)
  {
    if sorted != [] {
      if Below(name(x), name(sorted[0])) {
        forall j | 0 < j < |sorted|
          ensures Below(name(x), name(sorted[j]))
        {
          BelowTransitive(name(x), name(sorted[0]), name(sorted[j]));
        }
      } else {
        BelowTotal(name(x), name(sorted[0]));
        InsertAscends(x, sorted[1..], name);
        InsertElements(x, sorted[1..], name);
        forall y | y in Insert(x, sorted[1..], name)
          ensures Below(name(sorted[0]), name(y))
        {
          assert y in multiset(sorted[1..]) + multiset{x};
        }
      }
    }
  }

  lemma {:induction false} SortSorts<T>(xs: seq<T>, name: T -> string)
    requires DistinctNames(xs, name)
    ensures multiset(SortByName(xs, name)) == multiset(xs)
    ensures Ascending(SortByName(xs, name), name)
  {
    if xs != [] {
      var rest := SortByName(xs[1..], name);
      SortSorts(xs[1..], name);
      InsertElements(xs[0], rest, name);
      assert xs == [xs[0]] + xs[1..];
      forall y | y in rest
        ensures name(y) != name(xs[0])
      {
        assert y in multiset(xs[1..]);
        var j :| 0 <= j < |xs| - 1 && xs[1..][j] == y;
        assert xs[j + 1] == y;
      }
      InsertAscends(xs[0], rest, name);
    }
  }

  lemma {:induction false} OneAscendingOrder<T>(xs: seq<T>, ys: seq<T>, name: T -> string)
    requires Ascending(xs, name) && Ascending(ys, name) && multiset(xs) == multiset(ys)
    ensures xs == ys
  {
    assert |xs| == |multiset(xs)| == |ys|;
    if xs != [] {
      SameFirst(xs, ys, name);
      SameRest(xs, ys);
      OneAscendingOrder(xs[1..], ys[1..], name);
    }
  }

  lemma {:induction false} SameFirst<T>(xs: seq<T>, ys: seq<T>, name: T -> string)
    requires Ascending(xs, name) && Ascending(ys, name) && multiset(xs) == multiset(ys)
    requires xs != [] && ys != []
    ensures xs[0] == ys[0]
  {
    assert xs[0] in multiset(ys) && ys[0] in multiset(xs);
    var i :| 0 <= i < |xs| && xs[i] == ys[0];
    var j :| 0 <= j < |ys| && ys[j] == xs[0];
    if i > 0 && j > 0 {
      BelowTransitive(name(xs[0]), name(ys[0]), name(xs[0]));
      BelowIrreflexive(name(xs[0]));
    }
  }

  lemma {:induction false} SameRest<T>(xs: seq<T>, ys: seq<T>)
    requires xs != [] && ys != [] && multiset(xs) == multiset(ys) && xs[0] == ys[0]
    ensures multiset(xs[1..]) == multiset(ys[1..]) && xs == [xs[0]] + xs[1..] && ys == [ys[0]] + ys[1..]
  {
    assert xs == [xs[0]] + xs[1..] && ys == [ys[0]] + ys[1..];
    assert multiset(xs[1..]) == multiset(xs) - multiset{xs[0]};
    assert multiset(ys[1..]) == multiset(ys) - multiset{ys[0]};
  }

  /** The sorted records do not depend on the order in which they were declared. */
  lemma {:induction false} SortForgetsOrder<T>(xs: seq<T>, ys: seq<T>, name: T -> string)
    requires DistinctNames(xs, name) && DistinctNames(ys, name) && multiset(xs) == multiset(ys)
    ensures SortByName(xs, name) == SortByName(ys, name)
  {
    SortSorts(xs, name);
    SortSorts(ys, name);
    OneAscendingOrder(SortByName(xs, name), SortByName(ys, name), name);
  }
}
