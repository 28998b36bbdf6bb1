/** A lexicographic order on fixed-length tuples of naturals, and why it has no infinite descent. */
module Measures {

  /** The first place where the two tuples differ is smaller in `a`. */
  ghost predicate Less(a: seq<nat>, b: seq<nat>) {
    && |a| == |b|
    && exists k :: 0 <= k < |a| && a[..k] == b[..k] && a[k] < b[k]
  }

  ghost predicate Descends(f: nat -> seq<nat>, n: nat, start: nat) {
    forall i: nat :: i >= start ==> |f(i)| == n && Less(f(i + 1), f(i))
  }

  lemma {:induction false} HeadNeverGrows(f: nat -> seq<nat>, n: nat, start: nat, i: nat)
    requires n > 0 && Descends(f, n, start) && start <= i
    ensures |f(i)| == n && f(i)[0] <= f(start)[0]
    decreases i
  {
    if i > start {
      HeadNeverGrows(f, n, start, i - 1);
      assert Less(f(i - 1 + 1), f(i - 1));
      var k :| 0 <= k < n && f(i)[..k] == f(i - 1)[..k] && f(i)[k] < f(i - 1)[k];
      if k > 0 {
        assert f(i)[..k][0] == f(i - 1)[..k][0];
      }
    }
  }

  lemma {:induction false} TailDescends(f: nat -> seq<nat>, n: nat, start: nat, i: nat)
    requires n > 0 && Descends(f, n, start) && start <= i
    requires f(i)[0] == f(i + 1)[0]
    ensures |f(i)[1..]| == n - 1 && Less(f(i + 1)[1..], f(i)[1..])
  {
    var a, b := f(i + 1), f(i);
    var k :| 0 <= k < n && a[..k] == b[..k] && a[k] < b[k];
    assert a[1..][..k - 1] == a[..k][1..] && b[1..][..k - 1] == b[..k][1..];
    assert a[1..][k - 1] < b[1..][k - 1];
  }

  /** No sequence of tuples descends for ever. */
  lemma {:induction false} NoInfiniteDescent(f: nat -> seq<nat>, n: nat, start: nat)
    ensures !Descends(f, n, start)
    decreases n, if n > 0 && |f(start)| == n then f(start)[0] else 0
  {
    if Descends(f, n, start) {
      assert |f(start)| == n && Less(f(start + 1), f(start));
      if i: nat :| start <= i && |f(i)| == n && f(i)[0] < f(start)[0] {
        assert Descends(f, n, i);
        NoInfiniteDescent(f, n, i);
      } else {
        var g: nat -> seq<nat> := i => if |f(i)| > 0 then f(i)[1..] else [];
        forall i: nat | i >= start
          ensures |g(i)| == n - 1 && Less(g(i + 1), g(i))
        {
          HeadNeverGrows(f, n, start, i);
          HeadNeverGrows(f, n, start, i + 1);
          TailDescends(f, n, start, i);
        }
        assert Descends(g, n - 1, start);
        NoInfiniteDescent(g, n - 1, start);
      }
    }
  }
}
