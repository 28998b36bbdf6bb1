/**
 * Aggregating telemetry samples: values are flattened to dotted paths, aggregated
 * path by path, and assigned back into objects (mininet_ai/runtime/telemetry.py).
 */
module Telemetry {
  import opened Basics

  // --------------------------------------------------------------- dotted paths

  predicate DotFree(key: string) {
    forall i :: 0 <= i < |key| ==> key[i] != '.'
  }

  ghost predicate DotFreePath(keys: seq<string>) {
    forall i :: 0 <= i < |keys| ==> DotFree(keys[i])
  }

  /** No key has a dot, and the first is not empty; a later key may be empty. */
  ghost predicate CleanKeys(keys: seq<string>) {
    DotFreePath(keys) && (keys != [] ==> keys[0] != "")
  }

  /** The path of a child: its key alone at the top, and otherwise after a dot. */
  function ChildPath(prefix: string, key: string): string {
    if prefix == "" then key else prefix + "." + key
  }

  function Join(keys: seq<string>): string {
    if keys == [] then "" else ChildPath(Join(keys[..|keys| - 1]), keys[|keys| - 1])
  }

  /** The place of the last dot, or -1. */
  function LastDot(s: string): (place: int)
    ensures -1 <= place < |s|
  {
    if s == "" then -1 else if s[|s| - 1] == '.' then |s| - 1 else LastDot(s[..|s| - 1])
  }

  function Split(s: string): (parts: seq<string>)
    ensures parts != []
    decreases |s|
  {
    var place := LastDot(s);
    if place < 0 then [s] else Split(s[..place]) + [s[place + 1..]]
  }

  lemma {:induction false} LastDotBefore(a: string, key: string)
    requires DotFree(key)
    ensures LastDot(a + "." + key) == |a|
  {
    var s := a + "." + key;
    if key != "" {
      var shorter := key[..|key| - 1];
      assert s[..|s| - 1] == a + "." + shorter;
      assert s[|s| - 1] == key[|key| - 1];
      LastDotBefore(a, shorter);
    }
  }

  lemma {:induction false} NoLastDot(key: string)
    requires DotFree(key)
    ensures LastDot(key) == -1
  {
    if key != "" {
      NoLastDot(key[..|key| - 1]);
    }
  }

  lemma {:induction false} JoinNonempty(keys: seq<string>)
    requires CleanKeys(keys) && keys != []
    ensures Join(keys) != ""
  {
    if |keys| > 1 {
      JoinNonempty(keys[..|keys| - 1]);
    }
  }

  /** Splitting a joined path gives back its keys, if none has a dot and the first is not empty. */
  lemma {:induction false} SplitJoin(keys: seq<string>)
    requires CleanKeys(keys) && keys != []
    ensures Split(Join(keys)) == keys
  {
    var n := |keys| - 1;
    if n == 0 {
      assert keys[..0] == [];
      NoLastDot(keys[0]);
    } else {
      JoinNonempty(keys[..n]);
      SplitJoin(keys[..n]);
      var a := Join(keys[..n]);
      LastDotBefore(a, keys[n]);
      var s := a + "." + keys[n];
      assert s[..|a|] == a && s[|a| + 1..] == keys[n];
      assert keys == keys[..n] + [keys[n]];
    }
  }

  // ------------------------------------------------------------------- flatten

  /** What a value holds at a path of keys, if that is not an object. */
  function LeafAt(value: Json, keys: seq<string>): Option<Json> {
    if keys == [] then if value.Object? then None else Some(value)
    else if value.Object? && keys[0] in value.fields then LeafAt(value.fields[keys[0]], keys[1..])
    else None
  }

  /** Every path and leaf that flattening meets; ambiguous keys can give one path several leaves. */
  function Bindings(value: Json, prefix: string): set<(string, Json)> {
    if value.Object? then
      set key, b | key in value.fields.Keys && b in Bindings(value.fields[key], ChildPath(prefix, key)) :: b
    else if prefix != "" then {(prefix, value)}
    else {}
  }

  /** The binding comes from one of these keys. */
  ghost predicate FromKeys(value: Json, prefix: string, keys: set<string>, b: (string, Json))
    requires value.Object?
  {
    exists key :: key in keys && key in value.fields && b in Bindings(value.fields[key], ChildPath(prefix, key))
  }

  lemma {:induction false} BindingsMember(value: Json, prefix: string, b: (string, Json))
    requires value.Object?
    ensures b in Bindings(value, prefix) <==> FromKeys(value, prefix, value.fields.Keys, b)
  {
  }

  /** A dictionary built from bindings in some order: each path has one of its leaves. */
  ghost predicate Flattening(m: map<string, Json>, bindings: set<(string, Json)>) {
    && (forall b :: b in bindings ==> b.0 in m)
    && (forall p :: p in m ==> (p, m[p]) in bindings)
  }

  method Flatten(value: Json, prefix: string) returns (m: map<string, Json>)
    ensures Flattening(m, Bindings(value, prefix))
    decreases value
  {
    if !value.Object? {
      m := if prefix != "" then map[prefix := value] else map[];
      return;
    }
    m := map[];
    var rest := value.fields.Keys;
    ghost var bindings: set<(string, Json)> := {};
    while rest != {}
      invariant rest <= value.fields.Keys && Flattening(m, bindings)
      invariant forall b :: b in bindings <==> FromKeys(value, prefix, value.fields.Keys - rest, b)
    {
      var key :| key in rest;
      var child := Flatten(value.fields[key], ChildPath(prefix, key));
      ghost var own := Bindings(value.fields[key], ChildPath(prefix, key));
      MergeFlattenings(m, bindings, child, own);
      OneMoreKey(value, prefix, value.fields.Keys - rest, key);
      assert value.fields.Keys - (rest - {key}) == value.fields.Keys - rest + {key};
      m := m + child;
      bindings := bindings + own;
      rest := rest - {key};
    }
    assert value.fields.Keys - {} == value.fields.Keys;
    forall b
      ensures b in bindings <==> b in Bindings(value, prefix)
    {
      BindingsMember(value, prefix, b);
    }
    assert bindings == Bindings(value, prefix);
  }

  lemma {:induction false} OneMoreKey(value: Json, prefix: string, keys: set<string>, key: string)
    requires value.Object? && key in value.fields
    ensures forall b :: FromKeys(value, prefix, keys + {key}, b)
              <==> FromKeys(value, prefix, keys, b) || b in Bindings(value.fields[key], ChildPath(prefix, key))
  {
  }

  lemma {:induction false} MergeFlattenings(m: map<string, Json>, a: set<(string, Json)>, n: map<string, Json>,
                                            b: set<(string, Json)>)
    requires Flattening(m, a) && Flattening(n, b)
    ensures Flattening(m + n, a + b)
  {
  }

  /** No key at any depth has a dot. */
  ghost predicate DotFreeKeys(value: Json) {
    value.Object? ==> forall key :: key in value.fields ==> DotFree(key) && DotFreeKeys(value.fields[key])
  }

  /** No key at any depth has a dot, and no key at the top is empty. */
  ghost predicate Clean(value: Json) {
    DotFreeKeys(value) && (value.Object? ==> "" !in value.fields)
  }

  lemma {:induction false} LeafPathDotFree(value: Json, keys: seq<string>)
    requires DotFreeKeys(value) && LeafAt(value, keys).Some?
    ensures DotFreePath(keys)
  {
    if keys != [] {
      LeafPathDotFree(value.fields[keys[0]], keys[1..]);
      assert keys == [keys[0]] + keys[1..];
    }
  }

  lemma {:induction false} LeafPathClean(value: Json, keys: seq<string>)
    requires Clean(value) && LeafAt(value, keys).Some?
    ensures CleanKeys(keys)
  {
    LeafPathDotFree(value, keys);
  }

  lemma {:induction false} JoinMore(above: seq<string>, key: string)
    ensures Join(above + [key]) == ChildPath(Join(above), key)
  {
    assert (above + [key])[..|above|] == above;
  }

  /** Flattening meets every leaf. */
  lemma {:induction false} LeafIsBound(value: Json, above: seq<string>, keys: seq<string>)
    requires LeafAt(value, keys).Some? && CleanKeys(above + keys) && above + keys != []
    ensures (Join(above + keys), LeafAt(value, keys).value) in Bindings(value, Join(above))
    decreases |keys|
  {
    if keys == [] {
      assert above + keys == above;
      JoinNonempty(above);
    } else {
      var below := above + [keys[0]];
      assert below + keys[1..] == above + keys;
      assert below[..|below| - 1] == above;
      LeafIsBound(value.fields[keys[0]], below, keys[1..]);
    }
  }

  lemma {:induction false} BoundBelow(value: Json, above: seq<string>, b: (string, Json)) returns (key: string)
    requires value.Object? && b in Bindings(value, Join(above))
    ensures key in value.fields
    ensures b in Bindings(value.fields[key], Join(above + [key]))
  {
    BindingsMember(value, Join(above), b);
    key :| key in value.fields && b in Bindings(value.fields[key], ChildPath(Join(above), key));
    JoinMore(above, key);
  }

  lemma {:induction false} LeafBelow(value: Json, key: string, rest: seq<string>)
    requires value.Object? && key in value.fields
    ensures LeafAt(value, [key] + rest) == LeafAt(value.fields[key], rest)
  {
    assert ([key] + rest)[1..] == rest;
  }

  lemma {:induction false} Regroup(above: seq<string>, key: string, rest: seq<string>)
    ensures above + [key] + rest == above + ([key] + rest)
  {
  }

  /** Flattening meets nothing but leaves. */
  lemma {:induction false} BoundIsLeaf(value: Json, above: seq<string>, b: (string, Json)) returns (keys: seq<string>)
    requires b in Bindings(value, Join(above))
    ensures LeafAt(value, keys) == Some(b.1) && b.0 == Join(above + keys) && above + keys != []
    decreases value
  {
    if value.Object? {
      var key := BoundBelow(value, above, b);
      var rest := BoundIsLeaf(value.fields[key], above + [key], b);
      LeafBelow(value, key, rest);
      keys := [key] + rest;
      Regroup(above, key, rest);
    } else {
      keys := [];
      assert above + keys == above;
    }
  }

  /** Every path of a clean flattening is the path of some leaf. */
  lemma {:induction false} FlattenedPath(value: Json, m: map<string, Json>, path: string)
    requires Clean(value) && Flattening(m, Bindings(value, "")) && path in m
    ensures CleanKeys(Split(path)) && Join(Split(path)) == path && LeafAt(value, Split(path)) == Some(m[path])
  {
    assert Join([]) == "";
    var keys := BoundIsLeaf(value, [], (path, m[path]));
    assert [] + keys == keys;
    LeafPathClean(value, keys);
    SplitJoin(keys);
  }

  /** On clean values a flattening is exactly the leaves, one for each path. */
  lemma {:induction false} FlatteningExact(value: Json, m: map<string, Json>, keys: seq<string>)
    requires Clean(value) && Flattening(m, Bindings(value, "")) && CleanKeys(keys) && keys != []
    ensures Join(keys) in m <==> LeafAt(value, keys).Some?
    ensures Join(keys) in m ==> LeafAt(value, keys) == Some(m[Join(keys)])
  {
    SplitJoin(keys);
    if Join(keys) in m {
      FlattenedPath(value, m, Join(keys));
    } else if LeafAt(value, keys).Some? {
      assert Join([]) == "" && [] + keys == keys;
      LeafIsBound(value, [], keys);
    }
  }

  /** Walks down from a value by the parts of a path. */
  function Descend(value: Json, parts: seq<string>): Option<Json> {
    if parts == [] then Some(value)
    else if value.Object? && parts[0] in value.fields then Descend(value.fields[parts[0]], parts[1..])
    else None
  }

  /** The number at a dotted path, if there is one. */
  function NumericPath(value: Json, path: string): Option<real> {
    var found := Descend(value, Split(path));
    if found.Some? && found.value.Number? then Some(found.value.number) else None
  }

  lemma {:induction false} DescendToLeaf(value: Json, parts: seq<string>)
    ensures var found := Descend(value, parts);
            LeafAt(value, parts) == if found.Some? && !found.value.Object? then found else None
  {
    if parts != [] && value.Object? && parts[0] in value.fields {
      DescendToLeaf(value.fields[parts[0]], parts[1..]);
    }
  }

  /** Looking up the joined path of clean keys finds the number that is the leaf at those keys. */
  lemma {:induction false} LookupFindsLeaf(value: Json, keys: seq<string>)
    requires CleanKeys(keys) && keys != []
    ensures var leaf := LeafAt(value, keys);
            NumericPath(value, Join(keys)) == if leaf.Some? && leaf.value.Number? then Some(leaf.value.number) else None
  {
    SplitJoin(keys);
    DescendToLeaf(value, keys);
  }

  // -------------------------------------------------------------------- assign

  /** Sets a leaf, creating objects along the way and replacing what is not an object. */
  function Assign(fields: map<string, Json>, keys: seq<string>, value: Json): map<string, Json>
    requires keys != []
    decreases |keys|
  {
    if |keys| == 1 then fields[keys[0] := value]
    else
      var child := if keys[0] in fields && fields[keys[0]].Object? then fields[keys[0]].fields else map[];
      fields[keys[0] := Object(Assign(child, keys[1..], value))]
  }

  /** No leaf lies strictly above the end of the path. */
  ghost predicate OpenAbove(value: Json, keys: seq<string>) {
    forall n :: 0 <= n < |keys| ==> LeafAt(value, keys[..n]).None?
  }

  /** What an assignment changes: its own path, and whatever lay below it. */
  lemma {:induction false} AssignChanges(fields: map<string, Json>, keys: seq<string>, value: Json, at: seq<string>)
    requires keys != [] && !value.Object? && OpenAbove(Object(fields), keys)
    ensures LeafAt(Object(Assign(fields, keys, value)), at)
            == if at == keys then Some(value) else if keys <= at then None else LeafAt(Object(fields), at)
    decreases |keys|
  {
    if at != [] && at[0] == keys[0] {
      var child := if keys[0] in fields && fields[keys[0]].Object? then fields[keys[0]].fields else map[];
      if |keys| == 1 {
        assert at == keys <==> at[1..] == [];
      } else {
        assert OpenAbove(Object(child), keys[1..]) by {
          forall n | 0 <= n < |keys| - 1
            ensures LeafAt(Object(child), keys[1..][..n]).None?
          {
            assert keys[..n + 1][0] == keys[0] && keys[..n + 1][1..] == keys[1..][..n];
            assert LeafAt(Object(fields), keys[..n + 1]).None?;
          }
        }
        AssignChanges(child, keys[1..], value, at[1..]);
        assert keys == [keys[0]] + keys[1..] && at == [at[0]] + at[1..];
        assert keys <= at <==> keys[1..] <= at[1..];
        assert keys[..1][1..] == [] && LeafAt(Object(fields), keys[..1]).None?;
      }
    }
  }

  /** Two different leaf paths of one value: neither is a prefix of the other. */
  lemma {:induction false} LeavesApart(value: Json, a: seq<string>, b: seq<string>)
    requires LeafAt(value, a).Some? && LeafAt(value, b).Some? && a <= b
    ensures a == b
    decreases |a|
  {
    if a != [] {
      assert a[1..] <= b[1..];
      LeavesApart(value.fields[a[0]], a[1..], b[1..]);
      assert a == [a[0]] + a[1..] && b == [b[0]] + b[1..];
    }
  }

  /** Assigns the paths in order. */
  function AssignAll(m: map<string, Json>, order: seq<string>): map<string, Json>
    requires forall p :: p in order ==> p in m
  {
    if order == [] then map[]
    else
      var last := order[|order| - 1];
      Assign(AssignAll(m, order[..|order| - 1]), Split(last), m[last])
  }

  /** The paths of `m` are the leaf paths of `shape`, and its values are not objects. */
  ghost predicate Shaped(m: map<string, Json>, shape: Json) {
    && shape.Object? && Clean(shape)
    && (forall p :: p in m ==>
         !m[p].Object? && CleanKeys(Split(p)) && Join(Split(p)) == p && LeafAt(shape, Split(p)).Some?)
    && (forall keys :: keys != [] && LeafAt(shape, keys).Some? ==> Join(keys) in m && Split(Join(keys)) == keys)
  }

  /** After assigning some of the paths, exactly those are leaves, with their values. */
  lemma {:induction false} AssignedLeaves(m: map<string, Json>, order: seq<string>, shape: Json, keys: seq<string>)
    requires Shaped(m, shape) && Distinct(order) && (forall p :: p in order ==> p in m) && keys != []
    ensures LeafAt(Object(AssignAll(m, order)), keys)
            == if LeafAt(shape, keys).Some? && Join(keys) in order then Some(m[Join(keys)]) else None
    decreases |order|, 1
  {
    if order != [] {
      var n := |order| - 1;
      var last := order[n];
      var path := Split(last);
      var before := AssignAll(m, order[..n]);
      OpenForNext(m, order, shape);
      AssignChanges(before, path, m[last], keys);
      AssignedLeaves(m, order[..n], shape, keys);
      LastPathOnly(m, order, shape, keys);
    }
  }

  /** Among the leaves of the shape, the last path only concerns the leaf it names. */
  lemma {:induction false} LastPathOnly(m: map<string, Json>, order: seq<string>, shape: Json, keys: seq<string>)
    requires Shaped(m, shape) && order != [] && Distinct(order) && (forall p :: p in order ==> p in m) && keys != []
    ensures var n := |order| - 1;
            && (Join(keys) in order <==> Join(keys) in order[..n] || Join(keys) == order[n])
            && (keys == Split(order[n]) ==>
                 Join(keys) == order[n] && LeafAt(shape, keys).Some? && Join(keys) !in order[..n])
            && (LeafAt(shape, keys).Some? && Join(keys) == order[n] ==> keys == Split(order[n]))
            && (LeafAt(shape, keys).Some? && Split(order[n]) <= keys ==> keys == Split(order[n]))
  {
    var n := |order| - 1;
    assert order[n] in order && order[n] in m;
    assert order == order[..n] + [order[n]];
    if LeafAt(shape, keys).Some? && Split(order[n]) <= keys {
      LeavesApart(shape, Split(order[n]), keys);
    }
  }

  lemma {:induction false} OpenForNext(m: map<string, Json>, order: seq<string>, shape: Json)
    requires Shaped(m, shape) && Distinct(order) && order != [] && forall p :: p in order ==> p in m
    ensures var n := |order| - 1; OpenAbove(Object(AssignAll(m, order[..n])), Split(order[n]))
    decreases |order|, 0
  {
    var n := |order| - 1;
    var path := Split(order[n]);
    forall k | 0 <= k < |path|
      ensures LeafAt(Object(AssignAll(m, order[..n])), path[..k]).None?
    {
      if k > 0 {
        AssignedLeaves(m, order[..n], shape, path[..k]);
        if LeafAt(shape, path[..k]).Some? {
          LeavesApart(shape, path[..k], path);
        }
      }
    }
  }

  // --------------------------------------------------------------- aggregation

  datatype Aggregation = Latest | Minimum | Maximum | Mean | Sum

  function Total(values: seq<Json>): real
    requires forall v :: v in values ==> v.Number?
  {
    if values == [] then 0.0 else Total(values[..|values| - 1]) + values[|values| - 1].number
  }

  function Least(values: seq<Json>): real
    requires values != [] && forall v :: v in values ==> v.Number?
  {
    var last := values[|values| - 1].number;
    if |values| == 1 then last else if Least(values[..|values| - 1]) <= last then Least(values[..|values| - 1])
        else last
  }

  function Greatest(values: seq<Json>): real
    requires values != [] && forall v :: v in values ==> v.Number?
  {
    var last := values[|values| - 1].number;
    if |values| == 1 then last else if Greatest(values[..|values| - 1]) >= last then Greatest(values[..|values| - 1])
        else last
  }

  /** The aggregate of one path; values that are not all numbers keep the latest. */
  function Aggregate(values: seq<Json>, how: Aggregation): Json
    requires values != []
  {
    if how == Latest || exists v :: v in values && !v.Number? then values[|values| - 1]
    else
      match how
      case Minimum => Number(Least(values))
      case Maximum => Number(Greatest(values))
      case Sum => Number(Total(values))
      case Mean => Number(Total(values) / (|values| as real))
      case Latest => values[|values| - 1]
  }

  /** All samples have the same leaf paths. */
  ghost predicate SameShape(samples: seq<Json>) {
    && samples != []
    && (forall i :: 0 <= i < |samples| ==> samples[i].Object? && Clean(samples[i]))
    && forall i, keys :: 0 <= i < |samples| ==> (LeafAt(samples[i], keys).Some? <==> LeafAt(samples[0], keys).Some?)
  }

  function LeafValue(value: Json, keys: seq<string>): Json {
    var leaf := LeafAt(value, keys);
    if leaf.Some? then leaf.value else Null
  }

  /** One leaf over all samples, in order. */
  function Column(samples: seq<Json>, keys: seq<string>): (column: seq<Json>)
    ensures |column| == |samples|
  {
    seq(|samples|, i requires 0 <= i < |samples| => LeafValue(samples[i], keys))
  }

  /** What `paths` holds after some samples: under each path its column so far. */
  ghost predicate Collected(paths: map<string, seq<Json>>, samples: seq<Json>, n: nat)
    requires n <= |samples|
  {
    forall p :: p in paths ==>
      paths[p] != [] && CleanKeys(Split(p)) && Join(Split(p)) == p && paths[p] == Column(samples[..n], Split(p))
  }

  ghost predicate Complete(paths: map<string, seq<Json>>, shape: Json) {
    forall keys :: keys != [] && CleanKeys(keys) ==> (Join(keys) in paths <==> LeafAt(shape, keys).Some?)
  }

  /** Every path collected comes from some of the first samples, and its values are leaves. */
  ghost predicate FromSamples(paths: map<string, seq<Json>>, samples: seq<Json>, n: nat)
    requires n <= |samples|
  {
    && (forall p :: p in paths <==> InSome(samples, n, p))
    && (forall p :: p in paths ==> paths[p] != []) && (forall p :: p in paths ==> LeafColumn(paths[p]))
  }

  ghost predicate InSome(samples: seq<Json>, n: nat, path: string)
    requires n <= |samples|
  {
    exists i :: 0 <= i < n && IsPath(samples[i], path)
  }

  predicate LeafColumn(column: seq<Json>) {
    column != [] && forall k :: 0 <= k < |column| ==> !column[k].Object?
  }

  ghost predicate IsPath(sample: Json, path: string) {
    exists b :: b in Bindings(sample, "") && b.0 == path
  }

  method Collect(samples: seq<Json>) returns (paths: map<string, seq<Json>>)
    ensures FromSamples(paths, samples, |samples|)
    ensures SameShape(samples) ==> Collected(paths, samples, |samples|) && Complete(paths, samples[0])
  {
    paths := map[];
    for i := 0 to |samples|
      invariant FromSamples(paths, samples, i)
      invariant SameShape(samples) ==> Collected(paths, samples, i) && (i > 0 ==> Complete(paths, samples[0]))
      invariant i == 0 ==> paths == map[]
    {
      var flat := Flatten(samples[i], "");
      ghost var before := paths;
      paths := map p | p in paths.Keys + flat.Keys ::
        (if p in paths then paths[p] else []) + if p in flat then [flat[p]] else [];
      CollectPaths(samples, i, before, flat, paths);
      if SameShape(samples) {
        CollectOne(samples, i, before, flat, paths);
      }
    }
  }

  lemma {:induction false} BoundLeaf(value: Json, b: (string, Json))
    requires b in Bindings(value, "")
    ensures !b.1.Object?
  {
    assert Join([]) == "";
    var keys := BoundIsLeaf(value, [], b);
    LeafIsNotObject(value, keys);
  }

  lemma {:induction false} FlatPaths(sample: Json, flat: map<string, Json>)
    requires Flattening(flat, Bindings(sample, ""))
    ensures forall p :: p in flat <==> IsPath(sample, p)
    ensures forall p :: p in flat ==> !flat[p].Object?
  {
    forall p | p in flat
      ensures !flat[p].Object?
    {
      BoundLeaf(sample, (p, flat[p]));
    }
    forall p
      ensures p in flat <==> IsPath(sample, p)
    {
      assert p in flat ==> (p, flat[p]) in Bindings(sample, "");
    }
  }

  lemma {:induction false} CollectPaths(samples: seq<Json>, i: nat, before: map<string, seq<Json>>,
                                        flat: map<string, Json>,
                                        paths: map<string, seq<Json>>)
    requires i < |samples| && Flattening(flat, Bindings(samples[i], ""))
    requires FromSamples(before, samples, i) && Appended(before, flat, paths)
    ensures FromSamples(paths, samples, i + 1)
  {
    FlatPaths(samples[i], flat);
    forall p
      ensures p in paths <==> InSome(samples, i + 1, p)
    {
      InOneMore(samples, i, p);
      assert p in paths <==> p in before || p in flat;
    }
    forall p | p in paths
      ensures paths[p] != [] && LeafColumn(paths[p])
    {
      LeafColumnGrows(if p in before then before[p] else [], if p in flat then [flat[p]] else []);
    }
  }

  lemma {:induction false} InOneMore(samples: seq<Json>, n: nat, path: string)
    requires n < |samples|
    ensures InSome(samples, n + 1, path) <==> InSome(samples, n, path) || IsPath(samples[n], path)
  {
  }

  lemma {:induction false} LeafColumnGrows(column: seq<Json>, more: seq<Json>)
    requires column == [] || LeafColumn(column)
    requires more == [] || LeafColumn(more)
    ensures column + more == [] || LeafColumn(column + more)
  {
  }

  /** Adds the leaves of one more sample to the columns. */
  ghost predicate Appended(before: map<string, seq<Json>>, flat: map<string, Json>, paths: map<string, seq<Json>>) {
    && paths.Keys == before.Keys + flat.Keys
    && forall p :: p in paths ==>
         paths[p] == (if p in before then before[p] else []) + if p in flat then [flat[p]] else []
  }

  lemma {:induction false} CollectOne(samples: seq<Json>, i: nat, before: map<string, seq<Json>>,
                                      flat: map<string, Json>, paths: map<string, seq<Json>>)
    requires i < |samples| && SameShape(samples) && Flattening(flat, Bindings(samples[i], ""))
    requires Collected(before, samples, i) && (i > 0 ==> Complete(before, samples[0])) && (i == 0 ==> before == map[])
    requires Appended(before, flat, paths)
    ensures Collected(paths, samples, i + 1) && Complete(paths, samples[0])
  {
    CollectedComplete(samples, i, before, flat, paths);
    forall p | p in paths
      ensures paths[p] != [] && CleanKeys(Split(p)) && Join(Split(p)) == p
                && paths[p] == Column(samples[..i + 1], Split(p))
    {
      CollectedColumn(samples, i, before, flat, paths, p);
    }
  }

  lemma {:induction false} CollectedComplete(samples: seq<Json>, i: nat, before: map<string, seq<Json>>,
                                             flat: map<string, Json>, paths: map<string, seq<Json>>)
    requires i < |samples| && SameShape(samples) && Flattening(flat, Bindings(samples[i], ""))
    requires (i > 0 ==> Complete(before, samples[0])) && (i == 0 ==> before == map[]) && Appended(before, flat, paths)
    ensures Complete(paths, samples[0]) && Complete(map p | p in flat :: [flat[p]], samples[0])
  {
    forall keys | keys != [] && CleanKeys(keys)
      ensures Join(keys) in flat <==> LeafAt(samples[0], keys).Some?
      ensures Join(keys) in paths <==> LeafAt(samples[0], keys).Some?
    {
      FlatteningExact(samples[i], flat, keys);
      assert LeafAt(samples[i], keys).Some? <==> LeafAt(samples[0], keys).Some?;
    }
  }

  lemma {:induction false} CollectedColumn(samples: seq<Json>, i: nat, before: map<string, seq<Json>>,
                                           flat: map<string, Json>,
                                           paths: map<string, seq<Json>>, p: string)
    requires i < |samples| && SameShape(samples) && Flattening(flat, Bindings(samples[i], ""))
    requires Collected(before, samples, i) && (i > 0 ==> Complete(before, samples[0])) && (i == 0 ==> before == map[])
    requires Appended(before, flat, paths) && p in paths
    ensures paths[p] != [] && CleanKeys(Split(p)) && Join(Split(p)) == p
              && paths[p] == Column(samples[..i + 1], Split(p))
  {
    if p in flat {
      FlattenedPath(samples[i], flat, p);
    }
    assert CleanKeys(Split(p)) && Join(Split(p)) == p;
    FlatteningExact(samples[i], flat, Split(p));
    assert LeafAt(samples[i], Split(p)).Some? <==> LeafAt(samples[0], Split(p)).Some?;
    assert p in flat && (i > 0 ==> p in before);
    ColumnGrows(samples, i, Split(p));
  }

  lemma {:induction false} ColumnGrows(samples: seq<Json>, i: nat, keys: seq<string>)
    requires i < |samples|
    ensures Column(samples[..i + 1], keys) == Column(samples[..i], keys) + [LeafValue(samples[i], keys)]
    ensures i == 0 ==> Column(samples[..i], keys) == []
  {
  }

  /** Lists the paths; their order does not matter. */
  method ListPaths(paths: map<string, seq<Json>>) returns (order: seq<string>)
    ensures Distinct(order) && forall p :: p in order <==> p in paths
  {
    order := [];
    var rest := paths.Keys;
    while rest != {}
      invariant rest <= paths.Keys && Distinct(order)
      invariant forall p :: p in order <==> p in paths.Keys - rest
    {
      var p :| p in rest;
      assert p !in order;
      order := order + [p];
      rest := rest - {p};
    }
  }

  /** The leaf that the aggregate of samples of one shape must hold at a path. */
  function AggregateAt(samples: seq<Json>, how: Aggregation, keys: seq<string>): Option<Json>
    requires samples != []
  {
    if LeafAt(samples[0], keys).Some? then Some(Aggregate(Column(samples, keys), how)) else None
  }

  /** Looking up any path gives the aggregation of that leaf, and nothing where the samples have none. */
  ghost predicate Answers(samples: seq<Json>, how: Aggregation, fields: map<string, Json>)
    requires samples != []
  {
    forall keys :: keys != [] ==> LeafAt(Object(fields), keys) == AggregateAt(samples, how, keys)
  }

  /** A value that survives flattening and assignment unchanged. */
  ghost predicate Reproducible(value: Json) {
    value.Object? && value.fields != map[] && Clean(value) && Full(value)
  }

  /**
   * Aggregates the samples of one target. The target is dropped exactly when no sample
   * has a path. Over samples of one shape, looking up any path gives the aggregation of
   * that leaf, and there are no other leaves. One sample under `latest` is reproduced if
   * and only if it is a non-empty object without dots in its keys, without an empty key
   * at the top and without empty sub-objects.
   */
  method AggregateSamples(samples: seq<Json>, how: Aggregation) returns (result: Option<map<string, Json>>)
    ensures result.None? <==> forall i, p :: 0 <= i < |samples| ==> !IsPath(samples[i], p)
    ensures SameShape(samples) ==> Answers(samples, how, if result.Some? then result.value else map[])
    ensures |samples| == 1 && how == Latest ==>
              (result.Some? && Object(result.value) == samples[0] <==> Reproducible(samples[0]))
  {
    var paths := Collect(samples);
    var aggregated := AggregateAll(paths, how);
    var order := ListPaths(paths);
    var fields := AssignPaths(aggregated, order);
    result := if order == [] then None else Some(fields);
    Delivered(samples, how, paths, order, fields, result);
  }

  lemma {:induction false} Delivered(samples: seq<Json>, how: Aggregation, paths: map<string, seq<Json>>,
                                     order: seq<string>, fields: map<string, Json>, result: Option<map<string, Json>>)
    requires FromSamples(paths, samples, |samples|)
    requires SameShape(samples) ==> Collected(paths, samples, |samples|) && Complete(paths, samples[0])
    requires Distinct(order) && (forall p :: p in order <==> p in paths)
    requires fields == AssignAll(AggregateAll(paths, how), order)
    requires result == if order == [] then None else Some(fields)
    ensures result.None? <==> forall i, p :: 0 <= i < |samples| ==> !IsPath(samples[i], p)
    ensures SameShape(samples) ==> Answers(samples, how, if result.Some? then result.value else map[])
    ensures |samples| == 1 && how == Latest ==>
              (result.Some? && Object(result.value) == samples[0] <==> Reproducible(samples[0]))
  {
    var aggregated := AggregateAll(paths, how);
    AggregatesAreLeaves(paths, aggregated, how);
    LooksUp(samples, how, paths, aggregated, order, fields);
    Reproduces(samples, how, paths, aggregated, order, fields);
    NoPathsNoTarget(samples, paths, order);
  }

  lemma {:induction false} Reproduces(samples: seq<Json>, how: Aggregation, paths: map<string, seq<Json>>,
                                      aggregated: map<string, Json>, order: seq<string>, fields: map<string, Json>)
    requires FromSamples(paths, samples, |samples|)
    requires SameShape(samples) ==> Collected(paths, samples, |samples|) && Complete(paths, samples[0])
    requires forall p :: p in paths ==> paths[p] != []
    requires aggregated.Keys == paths.Keys && forall p :: p in paths ==> aggregated[p] == Aggregate(paths[p], how)
    requires forall p :: p in aggregated ==> !aggregated[p].Object?
    requires Distinct(order) && (forall p :: p in order <==> p in paths) && fields == AssignAll(aggregated, order)
    ensures |samples| == 1 && how == Latest ==>
              (order != [] && Object(fields) == samples[0] <==> Reproducible(samples[0]))
  {
    if |samples| == 1 && how == Latest {
      assert samples == [samples[0]];
      ReproducedIff(samples[0], paths, aggregated, order, fields);
    }
  }

  lemma {:induction false} LooksUp(samples: seq<Json>, how: Aggregation, paths: map<string, seq<Json>>,
                                   aggregated: map<string, Json>, order: seq<string>, fields: map<string, Json>)
    requires SameShape(samples) ==> Collected(paths, samples, |samples|) && Complete(paths, samples[0])
    requires forall p :: p in paths ==> paths[p] != []
    requires aggregated.Keys == paths.Keys && forall p :: p in paths ==> aggregated[p] == Aggregate(paths[p], how)
    requires Distinct(order) && (forall p :: p in order <==> p in paths) && fields == AssignAll(aggregated, order)
    ensures SameShape(samples) && order == [] ==> fields == map[]
    ensures SameShape(samples) ==> Answers(samples, how, fields)
  {
    if SameShape(samples) {
      assert samples[..|samples|] == samples;
      AggregatedLookup(samples, paths, aggregated, how, order, fields);
    }
  }

  lemma {:induction false} NoPathsNoTarget(samples: seq<Json>, paths: map<string, seq<Json>>, order: seq<string>)
    requires FromSamples(paths, samples, |samples|) && forall p :: p in order <==> p in paths
    ensures order == [] <==> forall i, p :: 0 <= i < |samples| ==> !IsPath(samples[i], p)
  {
    if order == [] {
      forall i, p | 0 <= i < |samples|
        ensures !IsPath(samples[i], p)
      {
        assert p !in order;
      }
    } else {
      assert order[0] in order && order[0] in paths;
    }
  }

  method AssignPaths(m: map<string, Json>, order: seq<string>) returns (fields: map<string, Json>)
    requires forall p :: p in order ==> p in m
    ensures fields == AssignAll(m, order)
  {
    fields := map[];
    for i := 0 to |order|
      invariant fields == AssignAll(m, order[..i])
    {
      assert order[..i + 1][..i] == order[..i];
      fields := Assign(fields, Split(order[i]), m[order[i]]);
    }
    assert order[..|order|] == order;
  }

  function AggregateAll(paths: map<string, seq<Json>>, how: Aggregation): (aggregated: map<string, Json>)
    requires (forall p :: p in paths ==> paths[p] != []) && (forall p :: p in paths ==> LeafColumn(paths[p]))
    ensures aggregated.Keys == paths.Keys && forall p :: p in paths ==> aggregated[p] == Aggregate(paths[p], how)
  {
    map p | p in paths :: Aggregate(paths[p], how)
  }

  lemma {:induction false} AggregatesAreLeaves(paths: map<string, seq<Json>>, aggregated: map<string, Json>,
                                               how: Aggregation)
    requires (forall p :: p in paths ==> paths[p] != []) && (forall p :: p in paths ==> LeafColumn(paths[p]))
    requires aggregated.Keys == paths.Keys && forall p :: p in paths ==> aggregated[p] == Aggregate(paths[p], how)
    ensures forall p :: p in aggregated ==> !aggregated[p].Object?
  {
    forall p | p in aggregated
      ensures !aggregated[p].Object?
    {
      AggregateIsLeaf(paths[p], how);
    }
  }

  lemma {:induction false} AggregatedLookup(samples: seq<Json>, paths: map<string, seq<Json>>,
                                            aggregated: map<string, Json>,
                                            how: Aggregation, order: seq<string>, fields: map<string, Json>)
    requires SameShape(samples) && samples[..|samples|] == samples
    requires Collected(paths, samples, |samples|) && Complete(paths, samples[0])
    requires aggregated.Keys == paths.Keys && forall p :: p in paths ==> aggregated[p] == Aggregate(paths[p], how)
    requires Distinct(order) && (forall p :: p in order <==> p in paths) && fields == AssignAll(aggregated, order)
    ensures forall keys :: keys != [] ==> LeafAt(Object(fields), keys) == AggregateAt(samples, how, keys)
    ensures order == [] ==> fields == map[]
    ensures Shaped(aggregated, samples[0])
  {
    AggregatedShape(samples, paths, aggregated, how);
    forall keys | keys != []
      ensures LeafAt(Object(fields), keys) == AggregateAt(samples, how, keys)
    {
      AssignedLeaves(aggregated, order, samples[0], keys);
    }
  }

  lemma {:induction false} LeafIsNotObject(value: Json, keys: seq<string>)
    requires LeafAt(value, keys).Some?
    ensures !LeafAt(value, keys).value.Object?
  {
    if keys != [] {
      LeafIsNotObject(value.fields[keys[0]], keys[1..]);
    }
  }

  lemma {:induction false} AggregatedShape(samples: seq<Json>, paths: map<string, seq<Json>>,
                                           aggregated: map<string, Json>, how: Aggregation)
    requires SameShape(samples) && Collected(paths, samples, |samples|) && Complete(paths, samples[0])
    requires samples[..|samples|] == samples
    requires aggregated.Keys == paths.Keys && forall p :: p in paths ==> aggregated[p] == Aggregate(paths[p], how)
    ensures Shaped(aggregated, samples[0])
    ensures forall keys :: keys != [] && LeafAt(samples[0], keys).Some? ==>
              aggregated[Join(keys)] == Aggregate(Column(samples, keys), how)
  {
    forall keys | keys != [] && LeafAt(samples[0], keys).Some?
      ensures Join(keys) in aggregated && Split(Join(keys)) == keys
    {
      LeafPathClean(samples[0], keys);
      SplitJoin(keys);
    }
    forall p | p in aggregated
      ensures !aggregated[p].Object? && LeafAt(samples[0], Split(p)).Some?
    {
      assert Join(Split(p)) in paths;
      ColumnsAreLeaves(samples, Split(p));
      AggregateIsLeaf(paths[p], how);
    }
  }

  lemma {:induction false} ColumnsAreLeaves(samples: seq<Json>, keys: seq<string>)
    requires SameShape(samples) && LeafAt(samples[0], keys).Some?
    ensures forall i :: 0 <= i < |samples| ==> !Column(samples, keys)[i].Object?
  {
    forall i | 0 <= i < |samples|
      ensures !LeafValue(samples[i], keys).Object?
    {
      LeafIsNotObject(samples[i], keys);
    }
  }

  lemma {:induction false} AggregateIsLeaf(values: seq<Json>, how: Aggregation)
    requires values != [] && forall i :: 0 <= i < |values| ==> !values[i].Object?
    ensures !Aggregate(values, how).Object?
  {
  }

  // --------------------------------------------------------------- reproduction

  /** Every object below the top has at least one key. */
  ghost predicate Full(value: Json) {
    value.Object? ==> forall key :: key in value.fields ==> Solid(value.fields[key])
  }

  ghost predicate Solid(value: Json) {
    value.Object? ==> value.fields != map[] && forall key :: key in value.fields ==> Solid(value.fields[key])
  }

  lemma {:induction false} SolidHasLeaf(value: Json) returns (keys: seq<string>)
    requires Solid(value)
    ensures LeafAt(value, keys).Some?
    decreases value
  {
    if value.Object? {
      var key :| key in value.fields;
      var rest := SolidHasLeaf(value.fields[key]);
      keys := [key] + rest;
    } else {
      keys := [];
    }
  }

  lemma {:induction false} AssignStaysFull(fields: map<string, Json>, keys: seq<string>, value: Json)
    requires keys != [] && !value.Object? && Full(Object(fields))
    ensures Full(Object(Assign(fields, keys, value))) && Assign(fields, keys, value) != map[]
    decreases |keys|
  {
    assert keys[0] in Assign(fields, keys, value);
    if |keys| > 1 {
      var child := if keys[0] in fields && fields[keys[0]].Object? then fields[keys[0]].fields else map[];
      AssignStaysFull(child, keys[1..], value);
    }
  }

  lemma {:induction false} AssignAllFull(m: map<string, Json>, order: seq<string>)
    requires forall p :: p in order ==> p in m && !m[p].Object?
    ensures Full(Object(AssignAll(m, order)))
  {
    if order != [] {
      var n := |order| - 1;
      AssignAllFull(m, order[..n]);
      AssignStaysFull(AssignAll(m, order[..n]), Split(order[n]), m[order[n]]);
    }
  }

  /** Values without empty sub-objects are determined by their leaves. */
  lemma {:induction false} SameLeavesSameValue(a: Json, b: Json)
    requires Full(a) && Full(b) && a.Object? == b.Object?
    requires forall keys :: LeafAt(a, keys) == LeafAt(b, keys)
    ensures a == b
    decreases a
  {
    if a.Object? {
      SameKeys(a, b);
      SameKeys(b, a);
      forall key | key in a.fields
        ensures a.fields[key] == b.fields[key]
      {
        forall keys
          ensures LeafAt(a.fields[key], keys) == LeafAt(b.fields[key], keys)
        {
          assert ([key] + keys)[1..] == keys;
          assert LeafAt(a, [key] + keys) == LeafAt(b, [key] + keys);
        }
        assert LeafAt(a.fields[key], []) == LeafAt(b.fields[key], []);
        SameLeavesSameValue(a.fields[key], b.fields[key]);
      }
      assert a.fields == b.fields;
    } else {
      assert LeafAt(a, []) == LeafAt(b, []);
    }
  }

  lemma {:induction false} SameKeys(a: Json, b: Json)
    requires a.Object? && b.Object? && Full(a)
    requires forall keys :: LeafAt(a, keys) == LeafAt(b, keys)
    ensures a.fields.Keys <= b.fields.Keys
  {
    forall key | key in a.fields
      ensures key in b.fields
    {
      var keys := SolidHasLeaf(a.fields[key]);
      assert ([key] + keys)[1..] == keys;
      assert LeafAt(b, [key] + keys).Some?;
    }
  }

  lemma {:induction false} OneSampleReproduced(sample: Json, aggregated: map<string, Json>, order: seq<string>,
                                               fields: map<string, Json>)
    requires Full(sample) && Shaped(aggregated, sample)
    requires (forall p :: p in order ==> p in aggregated) && fields == AssignAll(aggregated, order)
    requires forall keys :: keys != [] ==> LeafAt(Object(fields), keys) == AggregateAt([sample], Latest, keys)
    ensures Object(fields) == sample
  {
    AssignAllFull(aggregated, order);
    forall keys
      ensures LeafAt(Object(fields), keys) == LeafAt(sample, keys)
    {
      if keys != [] && LeafAt(sample, keys).Some? {
        assert Column([sample], keys) == [LeafValue(sample, keys)];
      }
    }
    SameLeavesSameValue(Object(fields), sample);
  }

  lemma {:induction false} ReproducibleComesBack(sample: Json, paths: map<string, seq<Json>>,
                                                 aggregated: map<string, Json>,
                                                 order: seq<string>, fields: map<string, Json>)
    requires Reproducible(sample) && Collected(paths, [sample], 1) && Complete(paths, sample)
    requires aggregated.Keys == paths.Keys && forall p :: p in paths ==> aggregated[p] == Aggregate(paths[p], Latest)
    requires Distinct(order) && (forall p :: p in order <==> p in paths) && fields == AssignAll(aggregated, order)
    ensures order != [] && Object(fields) == sample
  {
    assert SameShape([sample]) && [sample][..1] == [sample];
    AggregatedLookup([sample], paths, aggregated, Latest, order, fields);
    OneSampleReproduced(sample, aggregated, order, fields);
  }

  lemma {:induction false} NoEmptyTop(sample: Json, m: map<string, Json>, order: seq<string>)
    requires (forall p :: p in order ==> p in m && IsPath(sample, p)) && DotFreeKeys(sample)
    ensures "" !in AssignAll(m, order)
  {
    if "" in AssignAll(m, order) {
      var p := TopKeyPath(m, order, "");
      PathHeadNonempty(sample, p);
    }
  }

  lemma {:induction false} OnlyReproducibleComesBack(sample: Json, paths: map<string, seq<Json>>,
                                                     aggregated: map<string, Json>,
                                                     order: seq<string>)
    requires forall p :: p in paths ==> IsPath(sample, p)
    requires aggregated.Keys == paths.Keys && forall p :: p in aggregated ==> !aggregated[p].Object?
    requires order != [] && (forall p :: p in order <==> p in paths) && Object(AssignAll(aggregated, order)) == sample
    ensures Reproducible(sample)
  {
    AssignAllFull(aggregated, order);
    AssignAllDotFree(aggregated, order);
    NoEmptyTop(sample, aggregated, order);
    AssignAllNonempty(aggregated, order);
  }

  /** One sample under `latest` comes back unchanged exactly if it is reproducible. */
  lemma {:induction false} ReproducedIff(sample: Json, paths: map<string, seq<Json>>, aggregated: map<string, Json>,
                                         order: seq<string>, fields: map<string, Json>)
    requires FromSamples(paths, [sample], 1)
    requires SameShape([sample]) ==> Collected(paths, [sample], 1) && Complete(paths, sample)
    requires aggregated.Keys == paths.Keys && forall p :: p in paths ==> aggregated[p] == Aggregate(paths[p], Latest)
    requires forall p :: p in aggregated ==> !aggregated[p].Object?
    requires Distinct(order) && (forall p :: p in order <==> p in paths) && fields == AssignAll(aggregated, order)
    ensures order != [] && Object(fields) == sample <==> Reproducible(sample)
  {
    if Reproducible(sample) {
      assert SameShape([sample]);
      ReproducibleComesBack(sample, paths, aggregated, order, fields);
    } else if order != [] && Object(fields) == sample {
      OnlyReproducibleComesBack(sample, paths, aggregated, order);
    }
  }

  // ------------------------------------------------- what no result can contain

  lemma {:induction false} AfterLastDot(s: string)
    ensures DotFree(s[LastDot(s) + 1..])
  {
    if s != "" && s[|s| - 1] != '.' {
      var shorter := s[..|s| - 1];
      AfterLastDot(shorter);
      assert s[LastDot(s) + 1..] == shorter[LastDot(s) + 1..] + [s[|s| - 1]];
    }
  }

  lemma {:induction false} DotFreeMore(parts: seq<string>, last: string)
    requires DotFreePath(parts) && DotFree(last)
    ensures DotFreePath(parts + [last])
  {
  }

  lemma {:induction false} SplitDotFree(s: string)
    ensures DotFreePath(Split(s))
    decreases |s|
  {
    var place := LastDot(s);
    AfterLastDot(s);
    if place < 0 {
      WholeString(s);
    } else {
      SplitDotFree(s[..place]);
      DotFreeMore(Split(s[..place]), s[place + 1..]);
    }
  }

  lemma {:induction false} WholeString(s: string)
    requires DotFree(s[0..])
    ensures DotFreePath([s])
  {
    assert s[0..] == s;
  }

  lemma {:induction false} AssignDotFree(fields: map<string, Json>, keys: seq<string>, value: Json)
    requires keys != [] && DotFreePath(keys) && !value.Object? && DotFreeKeys(Object(fields))
    ensures DotFreeKeys(Object(Assign(fields, keys, value)))
    decreases |keys|
  {
    if |keys| > 1 {
      var child := if keys[0] in fields && fields[keys[0]].Object? then fields[keys[0]].fields else map[];
      assert DotFreeKeys(Object(child));
      AssignDotFree(child, keys[1..], value);
    }
  }

  lemma {:induction false} AssignAllDotFree(m: map<string, Json>, order: seq<string>)
    requires forall p :: p in order ==> p in m && !m[p].Object?
    ensures DotFreeKeys(Object(AssignAll(m, order)))
  {
    if order != [] {
      var n := |order| - 1;
      AssignAllDotFree(m, order[..n]);
      SplitDotFree(order[n]);
      AssignDotFree(AssignAll(m, order[..n]), Split(order[n]), m[order[n]]);
    }
  }

  lemma {:induction false} AssignAllNonempty(m: map<string, Json>, order: seq<string>)
    requires order != [] && forall p :: p in order ==> p in m
    ensures AssignAll(m, order) != map[]
  {
    var n := |order| - 1;
    assert Split(order[n])[0] in Assign(AssignAll(m, order[..n]), Split(order[n]), m[order[n]]);
  }

  /** Every top-level key of a result is the first part of one of its paths. */
  lemma {:induction false} TopKeyPath(m: map<string, Json>, order: seq<string>, key: string) returns (p: string)
    requires (forall p :: p in order ==> p in m) && key in AssignAll(m, order)
    ensures p in order && Split(p)[0] == key
  {
    var n := |order| - 1;
    if key in AssignAll(m, order[..n]) {
      p := TopKeyPath(m, order[..n], key);
    } else {
      p := order[n];
    }
  }

  lemma {:induction false} BoundPathNonempty(value: Json, prefix: string, b: (string, Json))
    requires b in Bindings(value, prefix)
    ensures b.0 != ""
    decreases value
  {
    if value.Object? {
      BindingsMember(value, prefix, b);
      var key :| key in value.fields && b in Bindings(value.fields[key], ChildPath(prefix, key));
      BoundPathNonempty(value.fields[key], ChildPath(prefix, key), b);
    }
  }

  /** Without dots in its keys, no path of a value begins with an empty part. */
  lemma {:induction false} PathHeadNonempty(value: Json, path: string)
    requires DotFreeKeys(value) && IsPath(value, path)
    ensures Split(path)[0] != ""
  {
    var b :| b in Bindings(value, "") && b.0 == path;
    assert Join([]) == "";
    BoundPathNonempty(value, "", b);
    var keys := BoundIsLeaf(value, [], b);
    assert [] + keys == keys;
    LeafPathDotFree(value, keys);
    JoinedHeadNonempty(keys);
  }

  lemma {:induction false} JoinedHeadNonempty(keys: seq<string>)
    requires DotFreePath(keys) && Join(keys) != ""
    ensures Split(Join(keys))[0] != ""
  {
    var n := |keys| - 1;
    var a := Join(keys[..n]);
    if a == "" {
      NoLastDot(keys[n]);
    } else {
      JoinedHeadNonempty(keys[..n]);
      LastDotBefore(a, keys[n]);
      var s := a + "." + keys[n];
      assert s[..|a|] == a;
    }
  }

  /** An empty sub-object has no path, so it does not survive. */
  lemma {:induction false} EmptyObjectsVanish(key: string, m: map<string, Json>)
    requires Flattening(m, Bindings(Object(map[key := Object(map[])]), ""))
    ensures m == map[]
  {
    assert Bindings(Object(map[]), ChildPath("", key)) == {};
    assert Bindings(Object(map[key := Object(map[])]), "") == {};
  }

  /** A dotted key and a nested key share a path, so one of two leaves is lost. */
  lemma {:induction false} DottedKeysCollide(a: Json, b: Json, m: map<string, Json>)
    requires !a.Object? && !b.Object? && a != b
    requires Flattening(m, Bindings(Object(map["x.y" := a, "x" := Object(map["y" := b])]), ""))
    ensures m == map["x.y" := a] || m == map["x.y" := b]
  {
    var inner := Object(map["y" := b]);
    var outer := Object(map["x.y" := a, "x" := inner]);
    assert ChildPath("x", "y") == "x.y";
    assert Bindings(b, "x.y") == {("x.y", b)} && Bindings(a, "x.y") == {("x.y", a)};
    forall c
      ensures c in Bindings(outer, "") <==> c == ("x.y", a) || c == ("x.y", b)
    {
      BindingsMember(outer, "", c);
      BindingsMember(inner, "x", c);
      assert outer.fields["x.y"] == a && outer.fields["x"] == inner && inner.fields["y"] == b;
    }
    assert m["x.y"] == a || m["x.y"] == b;
  }

  /** An empty key below the top keeps its place; one at the top is lost. */
  lemma {:induction false} EmptyKeys(value: Json)
    requires !value.Object?
    ensures Reproducible(Object(map["a" := Object(map["" := value])]))
    ensures !Reproducible(Object(map["" := value]))
  {
    var inner := Object(map["" := value]);
    assert "" in inner.fields && inner.fields[""] == value;
    assert Solid(inner) && DotFreeKeys(inner);
    var outer := Object(map["a" := inner]);
    assert "a" in outer.fields && outer.fields["a"] == inner;
  }
}
