/**
 * Recovery attempts, one after the other: each inspects the bundle, proposes what is
 * missing and carries it out under its own authority (mininet_ai/agents/bounded.py,
 * reconciliation.py and the halting walk of coordination/routing.py).
 */
module Retries {
  import opened Basics
  import opened Arbitration
  import opened Finishing
  import opened Recovery

  /**
   * What one recovery attempt meets: the inspection, what refuses its actions, the
   * deadline and the moments of its actions, and whether a failed action still took effect.
   */
  datatype Attempt = Attempt(readable: bool, env: Environment, deadline: int, moments: nat -> Moment, lateEffect: bool)

  function Inspect(size: nat, installed: set<nat>, readable: bool): (states: seq<StepState>)
    ensures |states| == size
  {
    seq(size, i => if !readable then Unreadable else if i in installed then Present else Missing)
  }

  /** The steps an accepted recovery proposes: none if the state is unknown or the bundle complete. */
  function Remaining(r: Reconciliation, size: nat): Option<seq<nat>> {
    match r.policy
    case Unknown => None
    case VerifiedRecovery => None
    case Partial => Some(Absent(r.present, size))
    case VerifiedPrimary => Some(Range(size))
  }

  /** The indexes below `size` that are not present, in order. */
  function Absent(present: seq<nat>, size: nat): seq<nat> {
    if size == 0 then []
    else Absent(present, size - 1) + if size - 1 in present then [] else [size - 1]
  }

  lemma {:induction false} AbsentAfterPrefix(k: nat, size: nat)
    ensures Absent(Range(k), size) == seq(if k <= size then size - k else 0, i requires 0 <= i => k + i)
  {
    if size > 0 {
      AbsentAfterPrefix(k, size - 1);
      assert size - 1 in Range(k) <==> size - 1 < k by {
        if size - 1 < k {
          assert Range(k)[size - 1] == size - 1;
        }
      }
    }
  }

  function Pick(bundle: seq<Candidate>, indexes: seq<nat>): seq<Candidate>
    requires forall i :: 0 <= i < |indexes| ==> indexes[i] < |bundle|
  {
    seq(|indexes|, i requires 0 <= i < |indexes| => bundle[indexes[i]])
  }

  /** The halting walk over a bundle, without its bookkeeping: what is started, and whether it has stopped. */
  function Carry(env: Environment, halted: bool, ordered: seq<Candidate>): (seq<Candidate>, bool) {
    if ordered == [] then ([], halted)
    else
      var last := ordered[|ordered| - 1];
      var (started, stopped) := Carry(env, halted, ordered[..|ordered| - 1]);
      if stopped then (started, true)
      else if last.id in env.rejections || env.revalidate(last.id).Some? || env.winner(last.id).Some?
          then (started, true)
      else (started + [last], env.execute(last.id) != Succeeded)
  }

  /** This is exactly what the walk of a bounded bundle does to the request's history. */
  lemma {:induction false} WalkCarries(env: Environment, start: Progress, ordered: seq<Candidate>)
    requires start.executed == [] && forall c :: c in ordered ==> c.id in start.decisions
    ensures var p := Walk(env, true, start, ordered);
            (p.executed, p.halted) == Carry(env, start.halted, ordered)
  {
    if ordered != [] {
      WalkCarries(env, start, ordered[..|ordered| - 1]);
    }
  }

  // ------------------------------------------------------------ under authority

  /** The place of a candidate in the order in which they ask to start. */
  function PlaceOf(ordered: seq<Candidate>, id: CandidateId): nat {
    if ordered == [] || ordered[0].id == id then 0 else 1 + PlaceOf(ordered[1..], id)
  }

  /** An action that is not allowed to start fails; one that is does what its moment says. */
  function Answer(a: Attempt, place: nat): Status {
    if Allowed(a.deadline, a.moments, place) && a.moments(place).succeeds then Succeeded else Failed
  }

  /** The environment of an attempt: its actions are executed under its authority, in this order. */
  function Timed(a: Attempt, ordered: seq<Candidate>): Environment {
    a.env.(execute := id => Answer(a, PlaceOf(ordered, id)))
  }

  function InOrder(policy: Policy, a: Attempt, proposals: seq<Candidate>): seq<Candidate> {
    Ordered(policy, Admitted(a.env, proposals))
  }

  /** The steps one attempt asks to start for these proposals. */
  function StartedBy(policy: Policy, a: Attempt, proposals: seq<Candidate>): seq<Candidate> {
    var ordered := InOrder(policy, a, proposals);
    Carry(Timed(a, ordered), Invalid(a.env, proposals) != map[], ordered).0
  }

  /** The steps that its authority lets begin: only the last one started can be refused. */
  function Begun(a: Attempt, started: seq<Candidate>): seq<Candidate> {
    if started != [] && !Allowed(a.deadline, a.moments, |started| - 1) then started[..|started| - 1] else started
  }

  /** A step that did not succeed can only be the last one begun, and may or may not have taken effect. */
  function TookEffect(a: Attempt, begun: seq<Candidate>): seq<Candidate> {
    if begun != [] && !a.moments(|begun| - 1).succeeds && !a.lateEffect then begun[..|begun| - 1] else begun
  }

  function InstalledSteps(bundle: seq<Candidate>, steps: seq<Candidate>): set<nat> {
    set i | 0 <= i < |bundle| && bundle[i] in steps
  }

  /** The proposals of an attempt that finds these steps installed. */
  function Proposes(bundle: seq<Candidate>, installed: set<nat>, readable: bool): Option<seq<nat>> {
    Remaining(Reconcile(Inspect(|bundle|, installed, readable)), |bundle|)
  }

  lemma {:induction false} AbsentBounds(present: seq<nat>, size: nat)
    ensures forall i :: 0 <= i < |Absent(present, size)| ==> Absent(present, size)[i] < size
  {
    if size > 0 {
      AbsentBounds(present, size - 1);
    }
  }

  /** The installed steps after one attempt. */
  ghost function AfterAttempt(policy: Policy, bundle: seq<Candidate>, installed: set<nat>, a: Attempt): set<nat> {
    match Proposes(bundle, installed, a.readable)
    case None => installed
    case Some(indexes) =>
      AbsentBounds(Reconcile(Inspect(|bundle|, installed, a.readable)).present, |bundle|);
      installed + InstalledSteps(bundle, TookEffect(a, Begun(a, StartedBy(policy, a, Pick(bundle, indexes)))))
  }

  /** The first `k` indexes. */
  ghost function First(k: nat): (s: set<nat>)
    ensures forall i: nat :: i in s <==> i < k
  {
    if k == 0 then {} else First(k - 1) + {k - 1}
  }

  /** The steps of one invocation share its priority and are numbered in order. */
  ghost predicate SoundBundle(bundle: seq<Candidate>) {
    DistinctIds(bundle) && PriorityOrdered(bundle)
  }

  /** From the first `k` steps, a readable attempt proposes exactly the missing rest, and a complete bundle nothing. */
  lemma {:induction false} ProposesMissingSuffix(bundle: seq<Candidate>, k: nat)
    requires k <= |bundle|
    ensures Reconcile(Inspect(|bundle|, First(k), true)).policy != Unknown
    ensures Proposes(bundle, First(k), true)
            == if 0 < k == |bundle| then None else Some(seq(|bundle| - k, i requires 0 <= i => k + i))
  {
    var states := Inspect(|bundle|, First(k), true);
    var missing := seq(|bundle| - k, i requires 0 <= i => k + i);
    assert PrefixShaped(states, k);
    ReconcileExact(states, k);
    AbsentAfterPrefix(k, |bundle|);
    if k == 0 {
      assert Range(|bundle|) == missing;
    } else if k < |bundle| {
      assert Absent(Range(k), |bundle|) == missing;
    }
  }

  lemma {:induction false} CarryStops(env: Environment, halted: bool, ordered: seq<Candidate>)
    ensures var (started, stopped) := Carry(env, halted, ordered);
            && started <= ordered && (halted ==> started == []) && (!stopped ==> started == ordered)
  {
    if ordered != [] {
      CarryStops(env, halted, ordered[..|ordered| - 1]);
    }
  }

  /** Only a prefix of the proposals is started, if arbitration orders a prefix of them. */
  lemma {:induction false} StartsPrefix(policy: Policy, a: Attempt, proposals: seq<Candidate>)
    requires Ordered(policy, proposals) <= proposals
    ensures StartedBy(policy, a, proposals) <= proposals
  {
    var ordered := InOrder(policy, a, proposals);
    CarryStops(Timed(a, ordered), Invalid(a.env, proposals) != map[], ordered);
    if Invalid(a.env, proposals) == map[] {
      NoneInvalid(a.env, proposals);
    }
  }

  /** Installing the next few steps of a distinct bundle extends the installed prefix. */
  lemma {:induction false} ExtendsPrefix(bundle: seq<Candidate>, k: nat, steps: seq<Candidate>)
    requires DistinctIds(bundle) && k <= |bundle| && steps <= bundle[k..]
    ensures First(k) + InstalledSteps(bundle, steps) == First(k + |steps|)
  {
    forall i | 0 <= i < |bundle|
      ensures bundle[i] in steps <==> k <= i < k + |steps|
    {
      if bundle[i] in steps {
        var j :| 0 <= j < |steps| && steps[j] == bundle[i];
        assert steps[j] == bundle[k..][j] == bundle[k + j];
      }
      if k <= i < k + |steps| {
        assert steps[i - k] == bundle[k..][i - k] == bundle[i];
      }
    }
  }

  lemma {:induction false} PickSuffix(bundle: seq<Candidate>, k: nat)
    requires k <= |bundle|
    ensures Pick(bundle, seq(|bundle| - k, i requires 0 <= i => k + i)) == bundle[k..]
  {
  }

  /** What a readable attempt installs on top of the first `k` steps of an incomplete bundle. */
  lemma {:induction false} AttemptInstalls(policy: Policy, bundle: seq<Candidate>, k: nat, a: Attempt)
    requires k <= |bundle| && !(0 < k == |bundle|) && a.readable
    ensures AfterAttempt(policy, bundle, First(k), a)
            == First(k) + InstalledSteps(bundle, TookEffect(a, Begun(a, StartedBy(policy, a, bundle[k..]))))
  {
    ProposesMissingSuffix(bundle, k);
    PickSuffix(bundle, k);
  }

  lemma {:induction false} AttemptInstallsNothing(policy: Policy, bundle: seq<Candidate>, k: nat, a: Attempt)
    requires k <= |bundle| && (0 < k == |bundle| || !a.readable)
    ensures AfterAttempt(policy, bundle, First(k), a) == First(k)
  {
    if a.readable {
      ProposesMissingSuffix(bundle, k);
    } else {
      UnreadableProposesNothing(bundle, First(k));
    }
  }

  lemma {:induction false} AttemptReaches(policy: Policy, bundle: seq<Candidate>, k: nat, a: Attempt,
                                          steps: seq<Candidate>)
    requires DistinctIds(bundle) && k <= |bundle| && !(0 < k == |bundle|) && a.readable
    requires steps == TookEffect(a, Begun(a, StartedBy(policy, a, bundle[k..]))) && steps <= bundle[k..]
    ensures AfterAttempt(policy, bundle, First(k), a) == First(k + |steps|)
  {
    AttemptInstalls(policy, bundle, k, a);
    ExtendsPrefix(bundle, k, steps);
  }

  /** One attempt moves from prefix to prefix when arbitration orders a prefix of what is missing. */
  lemma {:induction false} AttemptKeepsPrefix(policy: Policy, bundle: seq<Candidate>, k: nat, a: Attempt)
    returns (k': nat)
    requires DistinctIds(bundle) && k <= |bundle| && Ordered(policy, bundle[k..]) <= bundle[k..]
    ensures k <= k' <= |bundle| && AfterAttempt(policy, bundle, First(k), a) == First(k')
  {
    if !a.readable || 0 < k == |bundle| {
      AttemptInstallsNothing(policy, bundle, k, a);
      k' := k;
    } else {
      StartsPrefix(policy, a, bundle[k..]);
      var steps := TookEffect(a, Begun(a, StartedBy(policy, a, bundle[k..])));
      assert steps <= bundle[k..];
      AttemptReaches(policy, bundle, k, a, steps);
      k' := k + |steps|;
    }
  }

  lemma {:induction false} UnreadableProposesNothing(bundle: seq<Candidate>, installed: set<nat>)
    ensures bundle != [] ==> Proposes(bundle, installed, false).None?
    ensures bundle == [] ==> Proposes(bundle, installed, false) == Some([])
  {
    if bundle != [] {
      assert Inspect(|bundle|, installed, false)[0] == Unreadable;
    }
  }

  ghost function AfterAttempts(policy: Policy, bundle: seq<Candidate>, attempts: seq<Attempt>): set<nat> {
    if attempts == [] then {}
    else
      AfterAttempt(policy, bundle, AfterAttempts(policy, bundle, attempts[..|attempts| - 1]), attempts[|attempts| - 1])
  }

  /** One of the first `m` candidates conflicts with this one. */
  ghost predicate LosesTo(cs: seq<Candidate>, m: nat, c: Candidate)
    requires m <= |cs|
  {
    exists j :: 0 <= j < m && Conflicts(cs[j], c)
  }

  /** The first `m` candidates are compatible, and each later one conflicts with one of them. */
  ghost predicate LosersTrailFrom(cs: seq<Candidate>, m: nat) {
    m <= |cs| && ConflictFree(cs[..m]) && forall i :: m <= i < |cs| ==> LosesTo(cs, m, cs[i])
  }

  ghost predicate LosersTrail(cs: seq<Candidate>) {
    exists m :: LosersTrailFrom(cs, m)
  }

  /** No step that could run comes after one that `reject` drops, whichever steps are still missing. */
  ghost predicate NeverSkips(policy: Policy, bundle: seq<Candidate>) {
    policy == Reject ==> forall k :: 0 <= k <= |bundle| ==> LosersTrail(bundle[k..])
  }

  lemma {:induction false} WinnersOfConflictFree(cs: seq<Candidate>)
    requires ConflictFree(cs)
    ensures Winners(cs) == cs
  {
    if cs != [] {
      WinnersOfConflictFree(cs[..|cs| - 1]);
      assert cs == cs[..|cs| - 1] + [cs[|cs| - 1]];
    }
  }

  lemma {:induction false} TrailingLose(cs: seq<Candidate>, m: nat)
    requires LosersTrailFrom(cs, m)
    ensures Winners(cs) == cs[..m]
    decreases |cs|
  {
    var n := |cs| - 1;
    if m == |cs| {
      assert cs[..m] == cs;
      WinnersOfConflictFree(cs);
    } else {
      assert cs[..n][..m] == cs[..m];
      forall i | m <= i < n
        ensures LosesTo(cs[..n], m, cs[..n][i])
      {
        assert LosesTo(cs, m, cs[i]);
        var j :| 0 <= j < m && Conflicts(cs[j], cs[i]);
        assert cs[..n][j] == cs[j];
      }
      TrailingLose(cs[..n], m);
      assert LosesTo(cs, m, cs[n]);
      var j :| 0 <= j < m && Conflicts(cs[j], cs[n]);
      assert cs[..m][j] == cs[j];
    }
  }

  lemma {:induction false} PrefixWins(cs: seq<Candidate>)
    requires DistinctIds(cs) && Winners(cs) <= cs
    ensures LosersTrailFrom(cs, |Winners(cs)|)
  {
    var m := |Winners(cs)|;
    WinnersConflictFree(cs);
    forall i | m <= i < |cs|
      ensures LosesTo(cs, m, cs[i])
    {
      assert cs[i] !in Winners(cs);
      LoserHasWinner(cs, i);
      WinnersPrefix(cs, i);
      var w := FirstConflict(Winners(cs[..i]), cs[i]).value;
      var j :| 0 <= j < |Winners(cs[..i])| && Winners(cs[..i])[j] == w;
      assert Winners(cs)[j] == cs[j];
    }
  }

  /** Arbitration keeps a prefix of these steps exactly when, under `reject`, the losers come last. */
  lemma {:induction false} KeepsPrefixExactly(policy: Policy, cs: seq<Candidate>)
    requires DistinctIds(cs) && PriorityOrdered(cs)
    ensures Ordered(policy, cs) <= cs <==> (policy == Reject ==> LosersTrail(cs))
  {
    if policy == Priority {
      OnePriorityKeepsOrder(cs);
    } else if policy == Reject {
      if LosersTrail(cs) {
        var m :| LosersTrailFrom(cs, m);
        TrailingLose(cs, m);
      }
      if Winners(cs) <= cs {
        PrefixWins(cs);
      }
    }
  }

  /** Arbitration keeps a prefix of whatever is missing exactly when it never skips, as without conflicts. */
  lemma {:induction false} PoliciesThatNeverSkip(policy: Policy, bundle: seq<Candidate>)
    requires SoundBundle(bundle)
    ensures (forall k :: 0 <= k <= |bundle| ==> Ordered(policy, bundle[k..]) <= bundle[k..])
              <==> NeverSkips(policy, bundle)
    ensures policy != Reject || ConflictFree(bundle) ==> NeverSkips(policy, bundle)
  {
    forall k | 0 <= k <= |bundle|
      ensures Ordered(policy, bundle[k..]) <= bundle[k..] <==> (policy == Reject ==> LosersTrail(bundle[k..]))
      ensures ConflictFree(bundle) ==> LosersTrail(bundle[k..])
    {
      MissingIsSound(bundle, k);
      KeepsPrefixExactly(policy, bundle[k..]);
      if ConflictFree(bundle) {
        assert bundle[k..][..|bundle| - k] == bundle[k..];
        assert LosersTrailFrom(bundle[k..], |bundle| - k);
      }
    }
  }

  lemma {:induction false} MissingIsSound(bundle: seq<Candidate>, k: nat)
    requires SoundBundle(bundle) && k <= |bundle|
    ensures DistinctIds(bundle[k..]) && PriorityOrdered(bundle[k..])
  {
  }

  /**
   * Across any sequence of attempts, whatever fails, is cancelled, expires or takes
   * effect late, the installed rules are a prefix of the bundle; a readable inspection is
   * never unknown; the next attempt proposes exactly the missing suffix, and a complete
   * bundle is never proposed again.
   */
  lemma {:induction false} RetriesAreSafe(policy: Policy, bundle: seq<Candidate>, attempts: seq<Attempt>)
    returns (k: nat)
    requires SoundBundle(bundle) && NeverSkips(policy, bundle)
    ensures k <= |bundle| && AfterAttempts(policy, bundle, attempts) == First(k)
    ensures Reconcile(Inspect(|bundle|, AfterAttempts(policy, bundle, attempts), true)).policy != Unknown
    ensures Proposes(bundle, AfterAttempts(policy, bundle, attempts), true)
            == if 0 < k == |bundle| then None else Some(seq(|bundle| - k, i requires 0 <= i => k + i))
  {
    if attempts == [] {
      k := 0;
    } else {
      var j := RetriesAreSafe(policy, bundle, attempts[..|attempts| - 1]);
      MissingIsSound(bundle, j);
      KeepsPrefixExactly(policy, bundle[j..]);
      k := AttemptKeepsPrefix(policy, bundle, j, attempts[|attempts| - 1]);
    }
    ProposesMissingSuffix(bundle, k);
  }

  lemma {:induction false} PlaceOfAt(ordered: seq<Candidate>, i: nat)
    requires DistinctIds(ordered) && i < |ordered|
    ensures PlaceOf(ordered, ordered[i].id) == i
  {
    if i > 0 {
      PlaceOfAt(ordered[1..], i - 1);
    }
  }

  /** All steps that are started but the last were allowed to begin and succeeded. */
  lemma {:induction false} StartedSucceed(a: Attempt, all: seq<Candidate>, halted: bool, ordered: seq<Candidate>,
                                          i: nat)
    requires DistinctIds(all) && ordered <= all
    requires var (started, stopped) := Carry(Timed(a, all), halted, ordered);
             i < |started| && (i + 1 < |started| || !stopped)
    ensures Answer(a, i) == Succeeded
  {
    var n := |ordered| - 1;
    var (started, stopped) := Carry(Timed(a, all), halted, ordered[..n]);
    CarryStops(Timed(a, all), halted, ordered[..n]);
    if i < |started| {
      StartedSucceed(a, all, halted, ordered[..n], i);
    } else {
      assert i == n && all[n] == ordered[n];
      PlaceOfAt(all, n);
    }
  }

  lemma {:induction false} AllGranted(deadline: int, moments: nat -> Moment, size: nat)
    requires forall i :: 0 <= i < size ==> Allowed(deadline, moments, i) && moments(i).succeeds
    ensures Granted(deadline, moments, size) == size
  {
    if size > 0 {
      AllGranted(deadline, moments, size - 1);
    }
  }

  /** An attempt begins exactly as many of its started steps as its authority grants. */
  lemma {:induction false} BegunIsGranted(policy: Policy, a: Attempt, proposals: seq<Candidate>)
    requires DistinctIds(proposals) && Ordered(policy, proposals) <= proposals
    ensures var started := StartedBy(policy, a, proposals);
            |Begun(a, started)| == Granted(a.deadline, a.moments, |started|)
  {
    var ordered, started := InOrder(policy, a, proposals), StartedBy(policy, a, proposals);
    CarryStops(Timed(a, ordered), Invalid(a.env, proposals) != map[], ordered);
    if started != [] {
      NoneInvalid(a.env, proposals);
      StartedGranted(a, ordered);
    }
  }

  lemma {:induction false} StartedGranted(a: Attempt, ordered: seq<Candidate>)
    requires DistinctIds(ordered)
    ensures var started := Carry(Timed(a, ordered), false, ordered).0;
            started != [] ==> Granted(a.deadline, a.moments, |started| - 1) == |started| - 1
                              && (|started| > 1 ==> a.moments(|started| - 2).succeeds)
  {
    var started := Carry(Timed(a, ordered), false, ordered).0;
    forall i | 0 <= i < |started| - 1
      ensures Allowed(a.deadline, a.moments, i) && a.moments(i).succeeds
    {
      StartedSucceed(a, ordered, false, ordered, i);
    }
    if started != [] {
      AllGranted(a.deadline, a.moments, |started| - 1);
    }
  }

  /** A prefix of the missing steps is started, and each begun one is allowed and follows a success. */
  ghost predicate UnderAuthority(a: Attempt, started: seq<Candidate>, missing: seq<Candidate>) {
    var begun := Granted(a.deadline, a.moments, |started|);
    && started <= missing
    && (forall i :: 0 <= i < begun ==> Allowed(a.deadline, a.moments, i))
    && (forall i: nat :: i + 1 < begun ==> a.moments(i).succeeds)
  }

  /** How many of the begun steps take effect. */
  function Effective(a: Attempt, begun: nat): nat {
    if begun > 0 && !a.moments(begun - 1).succeeds && !a.lateEffect then begun - 1 else begun
  }

  lemma {:induction false} BegunOfMissing(policy: Policy, a: Attempt, missing: seq<Candidate>)
    requires DistinctIds(missing) && Ordered(policy, missing) <= missing
    ensures var started := StartedBy(policy, a, missing);
            && UnderAuthority(a, started, missing)
            && TookEffect(a, Begun(a, started)) <= missing
            && |TookEffect(a, Begun(a, started))| == Effective(a, Granted(a.deadline, a.moments, |started|))
  {
    StartsPrefix(policy, a, missing);
    BegunIsGranted(policy, a, missing);
    GrantedExact(a.deadline, a.moments, |StartedBy(policy, a, missing)|);
  }

  /** How many of the missing steps an attempt installs. */
  function Installs(policy: Policy, a: Attempt, missing: seq<Candidate>): nat {
    Effective(a, Granted(a.deadline, a.moments, |StartedBy(policy, a, missing)|))
  }

  lemma {:induction false} AttemptUnderAuthority(policy: Policy, bundle: seq<Candidate>, k: nat, a: Attempt)
    requires DistinctIds(bundle) && a.readable && k <= |bundle| && !(0 < k == |bundle|)
    requires DistinctIds(bundle[k..]) && Ordered(policy, bundle[k..]) <= bundle[k..]
    ensures AfterAttempt(policy, bundle, First(k), a) == First(k + Installs(policy, a, bundle[k..]))
  {
    BegunOfMissing(policy, a, bundle[k..]);
    AttemptReaches(policy, bundle, k, a, TookEffect(a, Begun(a, StartedBy(policy, a, bundle[k..]))));
  }

  /**
   * After any attempts, a further attempt at an incomplete bundle starts a prefix of the
   * missing steps, begins those that its authority grants, each allowed when it begins and
   * each after a success, and installs exactly these, but for a failed last one without
   * effect.
   */
  lemma {:induction false} RetriesUnderAuthority(policy: Policy, bundle: seq<Candidate>, attempts: seq<Attempt>,
                                                 a: Attempt)
    returns (k: nat)
    requires SoundBundle(bundle) && NeverSkips(policy, bundle) && a.readable
    ensures k <= |bundle| && AfterAttempts(policy, bundle, attempts) == First(k)
    ensures UnderAuthority(a, StartedBy(policy, a, bundle[k..]), bundle[k..])
    ensures AfterAttempts(policy, bundle, attempts + [a])
            == First(if 0 < k == |bundle| then k else k + Installs(policy, a, bundle[k..]))
  {
    k := RetriesAreSafe(policy, bundle, attempts);
    assert (attempts + [a])[..|attempts|] == attempts;
    MissingIsSound(bundle, k);
    KeepsPrefixExactly(policy, bundle[k..]);
    BegunOfMissing(policy, a, bundle[k..]);
    if 0 < k == |bundle| {
      AttemptInstallsNothing(policy, bundle, k, a);
    } else {
      AttemptUnderAuthority(policy, bundle, k, a);
    }
  }

  // ------------------------------------------------- when a bundle can be skipped

  /** Nothing is refused and every action succeeds. */
  const SMOOTH: Attempt :=
    Attempt(true, Environment(_ => None, _ => None, map[], _ => None, _ => Succeeded), 1, _ => Moment(None, 0, true),
        false)

  lemma {:induction false} SmoothRunsAll(ordered: seq<Candidate>, all: seq<Candidate>)
    ensures Carry(Timed(SMOOTH, all), false, ordered) == (ordered, false)
  {
    if ordered != [] {
      SmoothRunsAll(ordered[..|ordered| - 1], all);
      assert ordered == ordered[..|ordered| - 1] + [ordered[|ordered| - 1]];
    }
  }

  lemma {:induction false} SmoothAdmitsAll(proposals: seq<Candidate>)
    ensures Admitted(SMOOTH.env, proposals) == proposals && Invalid(SMOOTH.env, proposals) == map[]
  {
    if proposals != [] {
      SmoothAdmitsAll(proposals[..|proposals| - 1]);
      assert proposals == proposals[..|proposals| - 1] + [proposals[|proposals| - 1]];
    }
  }

  /** If exactly the first `m` candidates win, they win in order. */
  ghost predicate WinExactly(cs: seq<Candidate>, m: nat) {
    forall i :: 0 <= i < |cs| ==> (cs[i] in Winners(cs) <==> i < m)
  }

  lemma {:induction false} LastWins(cs: seq<Candidate>)
    requires DistinctIds(cs) && cs != []
    ensures var n := |cs| - 1;
            && (cs[n] in Winners(cs) ==> Winners(cs) == Winners(cs[..n]) + [cs[n]])
            && (cs[n] !in Winners(cs) ==> Winners(cs) == Winners(cs[..n]))
            && forall i :: 0 <= i < n ==> (cs[i] in Winners(cs) <==> cs[i] in Winners(cs[..n]))
  {
    var n := |cs| - 1;
    WinnersFrom(cs[..n]);
    forall i | 0 <= i < n
      ensures cs[i] != cs[n]
    {
      assert cs[i].id != cs[n].id;
    }
    assert cs[n] !in Winners(cs[..n]);
  }

  lemma {:induction false} DropLast(cs: seq<Candidate>, m: nat)
    requires DistinctIds(cs) && cs != [] && m <= |cs| && WinExactly(cs, m)
    ensures WinExactly(cs[..|cs| - 1], if m < |cs| then m else m - 1)
  {
    var n := |cs| - 1;
    LastWins(cs);
    forall i | 0 <= i < n
      ensures cs[..n][i] in Winners(cs[..n]) <==> i < m
    {
      assert cs[..n][i] == cs[i];
    }
  }

  lemma {:induction false} AllWin(cs: seq<Candidate>)
    requires DistinctIds(cs) && cs != [] && cs[|cs| - 1] in Winners(cs)
    requires Winners(cs[..|cs| - 1]) == cs[..|cs| - 1]
    ensures Winners(cs) == cs
  {
    LastWins(cs);
    assert cs == cs[..|cs| - 1] + [cs[|cs| - 1]];
  }

  lemma {:induction false} TakeOneMore(cs: seq<Candidate>, m: nat)
    requires DistinctIds(cs) && cs != [] && m <= |cs| && WinExactly(cs, m)
    requires Winners(cs[..|cs| - 1]) == cs[..if m < |cs| then m else m - 1]
    ensures Winners(cs) == cs[..m]
  {
    if m == |cs| {
      assert cs[..m] == cs;
      AllWin(cs);
    } else {
      LastWins(cs);
    }
  }

  lemma {:induction false} FirstWinners(cs: seq<Candidate>, m: nat)
    requires DistinctIds(cs) && m <= |cs| && WinExactly(cs, m)
    ensures Winners(cs) == cs[..m]
    decreases |cs|
  {
    if cs != [] {
      var prior := if m < |cs| then m else m - 1;
      DropLast(cs, m);
      FirstWinners(cs[..|cs| - 1], prior);
      assert cs[..|cs| - 1][..prior] == cs[..prior];
      TakeOneMore(cs, m);
    }
  }

  /** This attempt leaves an installed prefix of the bundle. */
  ghost predicate LeavesPrefix(policy: Policy, bundle: seq<Candidate>, k: nat, a: Attempt) {
    exists m :: AfterAttempt(policy, bundle, First(k), a) == First(m)
  }

  /**
   * The exact condition: from an installed prefix, every attempt leaves an installed
   * prefix if and only if, under `reject`, the missing steps start with compatible ones
   * and every later step conflicts with one of these.
   */
  lemma {:induction false} PrefixIffLosersTrail(policy: Policy, bundle: seq<Candidate>, k: nat)
    requires SoundBundle(bundle) && k <= |bundle|
    ensures (forall a :: LeavesPrefix(policy, bundle, k, a)) <==> (policy == Reject ==> LosersTrail(bundle[k..]))
  {
    MissingIsSound(bundle, k);
    KeepsPrefixExactly(policy, bundle[k..]);
    if Ordered(policy, bundle[k..]) <= bundle[k..] {
      forall a
        ensures LeavesPrefix(policy, bundle, k, a)
      {
        var m := AttemptKeepsPrefix(policy, bundle, k, a);
      }
    } else {
      SmoothAttemptSkips(policy, bundle, k);
    }
  }

  lemma {:induction false} SmoothAttemptSkips(policy: Policy, bundle: seq<Candidate>, k: nat)
    requires SoundBundle(bundle) && k <= |bundle| && !(Ordered(policy, bundle[k..]) <= bundle[k..])
    ensures !LeavesPrefix(policy, bundle, k, SMOOTH)
  {
    forall m
      ensures AfterAttempt(policy, bundle, First(k), SMOOTH) != First(m)
    {
      if AfterAttempt(policy, bundle, First(k), SMOOTH) == First(m) {
        SmoothPrefixKeepsOrder(policy, bundle, k, m);
      }
    }
  }

  lemma {:induction false} SmoothPrefixKeepsOrder(policy: Policy, bundle: seq<Candidate>, k: nat, m: nat)
    requires SoundBundle(bundle) && k <= |bundle|
    requires AfterAttempt(policy, bundle, First(k), SMOOTH) == First(m)
    ensures Ordered(policy, bundle[k..]) <= bundle[k..]
  {
    match policy
    case Serialize =>
    case Priority =>
      assert PriorityOrdered(bundle[k..]);
      OnePriorityKeepsOrder(bundle[k..]);
    case Reject =>
      if k < |bundle| {
        SmoothAttemptInstallsWinners(bundle, k);
        PrefixOfWinners(bundle, k, m);
      } else {
        assert bundle[k..] == [];
      }
  }

  lemma {:induction false} SmoothAttemptInstallsWinners(bundle: seq<Candidate>, k: nat)
    requires k < |bundle|
    ensures AfterAttempt(Reject, bundle, First(k), SMOOTH)
            == First(k) + InstalledSteps(bundle, Winners(bundle[k..]))
  {
    AttemptInstalls(Reject, bundle, k, SMOOTH);
    SmoothAdmitsAll(bundle[k..]);
    SmoothRunsAll(Winners(bundle[k..]), Winners(bundle[k..]));
  }

  lemma {:induction false} PrefixOfWinners(bundle: seq<Candidate>, k: nat, m: nat)
    requires DistinctIds(bundle) && k < |bundle|
    requires First(k) + InstalledSteps(bundle, Winners(bundle[k..])) == First(m)
    ensures Winners(bundle[k..]) <= bundle[k..]
  {
    var cs := bundle[k..];
    var installed := InstalledSteps(bundle, Winners(cs));
    assert m == 0 || m - 1 in First(k) + installed;
    assert k == 0 || k - 1 in First(m);
    forall i | 0 <= i < |cs|
      ensures cs[i] in Winners(cs) <==> i < m - k
    {
      assert cs[i] == bundle[k + i];
      assert k + i in First(m) <==> k + i < m;
      assert k + i in InstalledSteps(bundle, Winners(cs)) <==> bundle[k + i] in Winners(cs);
    }
    FirstWinners(cs, m - k);
  }

  /** A three-step bundle whose second step conflicts with its first. */
  const SKIPPED: seq<Candidate> := [
    Candidate(CandidateId(0, "bounded-1"), "s1", {"flow"}, 0, 0),
    Candidate(CandidateId(0, "bounded-2"), "s1", {"flow"}, 0, 1),
    Candidate(CandidateId(0, "bounded-3"), "s2", {"flow"}, 0, 2)]

  /** Under `reject` this bundle installs its first and third step although nothing failed. */
  lemma {:induction false} RejectCanSkip()
    ensures AfterAttempt(Reject, SKIPPED, First(0), SMOOTH) == {0, 2}
  {
    SkippedWinners();
    assert SKIPPED[0..] == SKIPPED;
    SmoothAttemptInstallsWinners(SKIPPED, 0);
    var steps := [SKIPPED[0], SKIPPED[2]];
    forall i | 0 <= i < 3
      ensures SKIPPED[i] in steps <==> i != 1
    {
      assert SKIPPED[i].sequence == i;
    }
    assert InstalledSteps(SKIPPED, steps) == {0, 2};
  }

  /** Installed steps with a gap read as unknown, and every further recovery is refused. */
  lemma {:induction false} GapsRefuseRecovery(policy: Policy, bundle: seq<Candidate>, installed: set<nat>, i: nat,
                                              j: nat, a: Attempt)
    requires i < j < |bundle| && i !in installed && j in installed
    ensures AfterAttempt(policy, bundle, installed, a) == installed
  {
    if a.readable {
      var states := Inspect(|bundle|, installed, true);
      ReconcileExact(states, 0);
      assert states[i] == Missing && states[j] == Present;
    } else {
      UnreadableProposesNothing(bundle, installed);
    }
  }

  lemma {:induction false} SkippedWinners()
    ensures Winners(SKIPPED) == [SKIPPED[0], SKIPPED[2]]
  {
    var c0, c1, c2 := SKIPPED[0], SKIPPED[1], SKIPPED[2];
    var flow := "s1" + ":" + "flow";
    assert flow in c0.ConflictKeys() && flow in c1.ConflictKeys();
    assert flow in c0.ConflictKeys() * c1.ConflictKeys();
    SkippedApart();
    assert SKIPPED[..2][..1] == [c0] && SKIPPED[..2] == [c0, c1] && [c0][..0] == [];
    assert Winners([c0]) == [c0];
    assert Winners([c0, c1]) == [c0];
  }

  lemma {:induction false} SkippedApart()
    ensures !Conflicts(SKIPPED[0], SKIPPED[2])
  {
    forall key | key in SKIPPED[0].ConflictKeys()
      ensures key !in SKIPPED[2].ConflictKeys()
    {
      assert key[1] == '1';
      assert forall other :: other in SKIPPED[2].ConflictKeys() ==> other[1] == '2';
    }
  }
}
