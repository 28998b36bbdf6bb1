/**
 * From prepared proposals to action results: `_commit_prepared` and
 * `_finish_prepared` of mininet_ai/coordination/routing.py, and the final
 * commit orders of one coordination request.
 */
module Finishing {
  import opened Basics
  import opened Arbitration

  datatype Status = Succeeded | Failed | Refused

  /** The result an agent is shown for one proposal. */
  datatype ActionResult = ActionResult(request: string, status: Status)

  /** What validation, the admission check and the capability answer while actions are carried out. */
  datatype Environment = Environment(
    validate: CandidateId -> Option<Status>,
    revalidate: CandidateId -> Option<Status>,
    rejections: map<CandidateId, CandidateId>,
    winner: CandidateId -> Option<CandidateId>,
    execute: CandidateId -> Status) {

    /** A refusal by validation is never a success. */
    ghost predicate Honest() {
      forall id :: validate(id) != Some(Succeeded) && revalidate(id) != Some(Succeeded)
    }
  }

  datatype Progress = Progress(results: map<CandidateId, Status>, decisions: map<CandidateId, Decision>,
                               executed: seq<Candidate>, halted: bool)

  function Reject(d: Decision, winner: Option<CandidateId>): Decision {
    Decision(d.id, Rejected, None, if winner.Some? then winner else d.winner)
  }

  /** One pass of the loop over the ordered candidates. */
  function Step(env: Environment, bounded: bool, p: Progress, c: Candidate): Progress
    requires c.id in p.decisions
  {
    var d := p.decisions[c.id];
    if p.halted then
      p.(results := p.results[c.id := Refused], decisions := p.decisions[c.id := Reject(d, None)])
    else if c.id in env.rejections then
      Progress(p.results[c.id := Refused], p.decisions[c.id := Reject(d, Some(env.rejections[c.id]))], p.executed,
          bounded)
    else if env.revalidate(c.id).Some? then
      Progress(p.results[c.id := env.revalidate(c.id).value], p.decisions[c.id := Reject(d, None)], p.executed, bounded)
    else if env.winner(c.id).Some? then
      Progress(p.results[c.id := Refused], p.decisions[c.id := Reject(d, env.winner(c.id))], p.executed, bounded)
    else
      p.(results := p.results[c.id := env.execute(c.id)], executed := p.executed + [c],
         halted := bounded && env.execute(c.id) != Succeeded)
  }

  function Walk(env: Environment, bounded: bool, start: Progress, ordered: seq<Candidate>): (p: Progress)
    requires forall c :: c in ordered ==> c.id in start.decisions
    ensures p.decisions.Keys == start.decisions.Keys
  {
    if ordered == [] then start
    else
      var n := |ordered| - 1;
      assert forall c :: c in ordered[..n] ==> c in ordered;
      Step(env, bounded, Walk(env, bounded, start, ordered[..n]), ordered[n])
  }

  // ------------------------------------------------------------ what a walk does

  function Ids(cs: seq<Candidate>): set<CandidateId> {
    set c | c in cs :: c.id
  }

  lemma {:induction false} SameId(cs: seq<Candidate>, a: Candidate, b: Candidate)
    requires DistinctIds(cs) && a in cs && b in cs && a.id == b.id
    ensures a == b
  {
  }

  /** A decision map that marks every ordered candidate for execution, and no result for any of them yet. */
  ghost predicate Fresh(start: Progress, ordered: seq<Candidate>) {
    && start.executed == []
    && DistinctIds(ordered)
    && (forall i :: 0 <= i < |ordered| ==> Unmet(start, ordered[i]))
  }

  ghost predicate Unmet(p: Progress, c: Candidate) {
    && c.id in p.decisions && p.decisions[c.id].id == c.id && p.decisions[c.id].disposition == Execute
    && c.id !in p.results
    && c.id !in Ids(p.executed)
  }

  /** The verdict on one candidate: started exactly when its decision says so, successful only if started. */
  ghost predicate Verdict(env: Environment, p: Progress, c: Candidate) {
    && c.id in p.decisions && c.id in p.results
    && p.decisions[c.id].id == c.id
    && (p.decisions[c.id].disposition == Execute <==> c.id in Ids(p.executed))
    && (if c.id in Ids(p.executed) then p.results[c.id] == env.execute(c.id) else p.results[c.id] != Succeeded)
  }

  /** A step settles its own candidate and nothing else. */
  lemma {:induction false} StepSettles(env: Environment, bounded: bool, p: Progress, c: Candidate)
    requires env.Honest() && Unmet(p, c) && DistinctIds(p.executed)
    ensures var q := Step(env, bounded, p, c);
            && Verdict(env, q, c)
            && q.results.Keys == p.results.Keys + {c.id}
            && DistinctIds(q.executed)
            && (q.executed == p.executed || q.executed == p.executed + [c])
            && (forall id :: id != c.id ==> SameFor(p, q, id))
  {
    var q := Step(env, bounded, p, c);
    assert Ids(p.executed + [c]) == Ids(p.executed) + {c.id};
    forall i | 0 <= i < |p.executed|
      ensures p.executed[i].id != c.id
    {
      assert p.executed[i] in p.executed;
    }
  }

  /** The two states treat this id alike. */
  ghost predicate SameFor(p: Progress, q: Progress, id: CandidateId) {
    && (id in p.decisions <==> id in q.decisions)
    && (id in p.decisions ==> q.decisions[id] == p.decisions[id])
    && (id in p.results <==> id in q.results)
    && (id in p.results ==> q.results[id] == p.results[id])
    && (id in Ids(p.executed) <==> id in Ids(q.executed))
  }

  /** A walk settles every ordered candidate, leaves every other id alone, and starts only what is ordered. */
  lemma {:induction false} WalkSettles(env: Environment, bounded: bool, start: Progress, ordered: seq<Candidate>)
    requires env.Honest() && Fresh(start, ordered)
    ensures Settled(env, start, ordered, Walk(env, bounded, start, ordered))
  {
    if ordered != [] {
      var n := |ordered| - 1;
      var prior, last := ordered[..n], ordered[n];
      NewId(ordered, n);
      WalkSettles(env, bounded, start, prior);
      SettledStep(env, bounded, start, prior, Walk(env, bounded, start, prior), last);
    }
  }

  ghost predicate Settled(env: Environment, start: Progress, ordered: seq<Candidate>, p: Progress) {
    && (forall i :: 0 <= i < |ordered| ==> Verdict(env, p, ordered[i]))
    && (forall id :: id !in Ids(ordered) ==> SameFor(start, p, id))
    && DistinctIds(p.executed)
    && Ids(p.executed) <= Ids(ordered)
  }

  lemma {:induction false} SettledStep(env: Environment, bounded: bool, start: Progress, prior: seq<Candidate>,
                                       p: Progress, last: Candidate)
    requires env.Honest() && Settled(env, start, prior, p)
    requires last.id !in Ids(prior) && Unmet(start, last) && start.executed == []
    ensures last.id in p.decisions
    ensures Settled(env, start, prior + [last], Step(env, bounded, p, last))
  {
    assert SameFor(start, p, last.id);
    StepSettles(env, bounded, p, last);
    var q := Step(env, bounded, p, last);
    AppendIds(prior, last);
    AppendIds(p.executed, last);
    forall i | 0 <= i < |prior|
      ensures Verdict(env, q, prior[i])
    {
      assert prior[i] in prior;
      assert Verdict(env, p, prior[i]);
      assert SameFor(p, q, prior[i].id);
    }
    forall id | id !in Ids(prior + [last])
      ensures SameFor(start, q, id)
    {
      assert SameFor(start, p, id) && SameFor(p, q, id);
    }
  }

  /** What a bounded bundle has done: it started a prefix, all of which succeeded unless it halted. */
  ghost predicate Stopping(env: Environment, halted: bool, p: Progress, ordered: seq<Candidate>) {
    && p.executed <= ordered
    && (halted ==> p.executed == [] && p.halted)
    && (!p.halted ==> p.executed == ordered)
    && (forall i :: 0 <= i < |p.executed| ==> (i < |p.executed| - 1 || !p.halted) ==>
         env.execute(p.executed[i].id) == Succeeded)
  }

  lemma {:induction false} StepStops(env: Environment, halted: bool, p: Progress, before: seq<Candidate>, c: Candidate)
    requires c.id in p.decisions && Stopping(env, halted, p, before)
    ensures Stopping(env, halted, Step(env, true, p, c), before + [c])
  {
    var q := Step(env, true, p, c);
    if p.halted || q.executed == p.executed {
      assert q.executed == p.executed && q.halted;
    } else {
      assert p.executed == before && q.executed == before + [c];
    }
  }

  /** A bounded bundle stops at the first step that is refused or does not succeed. */
  lemma {:induction false} BundleStops(env: Environment, start: Progress, ordered: seq<Candidate>)
    requires start.executed == [] && forall c :: c in ordered ==> c.id in start.decisions
    ensures Stopping(env, start.halted, Walk(env, true, start, ordered), ordered)
  {
    if ordered != [] {
      var n := |ordered| - 1;
      BundleStops(env, start, ordered[..n]);
      assert ordered[..n] + [ordered[n]] == ordered;
      StepStops(env, start.halted, Walk(env, true, start, ordered[..n]), ordered[..n], ordered[n]);
    }
  }

  // ---------------------------------------------------------------- the method

  /** Losers of arbitration are refused after the walk. */
  function WithLosers(results: map<CandidateId, Status>, cs: seq<Candidate>,
                      losers: set<CandidateId>): map<CandidateId, Status>
  {
    if cs == [] then results
    else
      var n := |cs| - 1;
      var rest := WithLosers(results, cs[..n], losers);
      if cs[n].id in losers then rest[cs[n].id := Refused] else rest
  }

  lemma {:induction false} WithLosersAt(results: map<CandidateId, Status>, cs: seq<Candidate>,
                                        losers: set<CandidateId>, id: CandidateId)
    ensures var r := WithLosers(results, cs, losers);
            && (id in r <==> id in results || (id in losers && id in Ids(cs)))
            && (id in r ==> r[id] == if id in losers && id in Ids(cs) then Refused else results[id])
  {
    if cs != [] {
      var n := |cs| - 1;
      WithLosersAt(results, cs[..n], losers, id);
      assert Ids(cs) == Ids(cs[..n]) + {cs[n].id} by {
        assert cs == cs[..n] + [cs[n]];
      }
    }
  }

  /** The proposals that pass the first validation, in order. */
  function Admitted(env: Environment, proposals: seq<Candidate>): seq<Candidate> {
    if proposals == [] then []
    else
      var last := proposals[|proposals| - 1];
      var prior := Admitted(env, proposals[..|proposals| - 1]);
      if env.validate(last.id).None? then prior + [last] else prior
  }

  /** The results of the proposals that do not pass it. */
  function Invalid(env: Environment, proposals: seq<Candidate>): map<CandidateId, Status> {
    if proposals == [] then map[]
    else
      var last := proposals[|proposals| - 1];
      var prior := Invalid(env, proposals[..|proposals| - 1]);
      if env.validate(last.id).Some? then prior[last.id := env.validate(last.id).value] else prior
  }

  /** Validation splits the proposals by id, and refuses none exactly when it admits all. */
  lemma {:induction false} ValidationSplits(env: Environment, proposals: seq<Candidate>)
    requires DistinctIds(proposals)
    ensures Ids(Admitted(env, proposals)) == set id | id in Ids(proposals) && env.validate(id).None?
    ensures Invalid(env, proposals).Keys == set id | id in Ids(proposals) && env.validate(id).Some?
    ensures DistinctIds(Admitted(env, proposals))
  {
    if proposals != [] {
      var n := |proposals| - 1;
      var prior, last := proposals[..n], proposals[n];
      ValidationSplits(env, prior);
      AppendIds(prior, last);
      AppendIds(Admitted(env, prior), last);
      NewId(proposals, n);
      if env.validate(last.id).None? {
        DistinctAppend(Admitted(env, prior), last);
      }
    }
  }

  lemma {:induction false} AppendIds(cs: seq<Candidate>, c: Candidate)
    ensures Ids(cs + [c]) == Ids(cs) + {c.id}
  {
  }

  lemma {:induction false} NewId(cs: seq<Candidate>, n: nat)
    requires DistinctIds(cs) && n + 1 == |cs|
    ensures cs[n].id !in Ids(cs[..n]) && cs == cs[..n] + [cs[n]]
  {
  }

  lemma {:induction false} DistinctAppend(cs: seq<Candidate>, c: Candidate)
    requires DistinctIds(cs) && c.id !in Ids(cs)
    ensures DistinctIds(cs + [c])
  {
    assert forall i :: 0 <= i < |cs| ==> cs[i] in cs && cs[i].id in Ids(cs);
  }

  lemma {:induction false} InvalidHonest(env: Environment, proposals: seq<Candidate>, id: CandidateId)
    requires env.Honest() && id in Invalid(env, proposals)
    ensures Invalid(env, proposals)[id] != Succeeded
  {
    var n := |proposals| - 1;
    if id in Invalid(env, proposals[..n]) {
      InvalidHonest(env, proposals[..n], id);
    }
  }

  method ValidateProposals(env: Environment, proposals: seq<Candidate>)
    returns (admitted: seq<Candidate>, results: map<CandidateId, Status>)
    ensures admitted == Admitted(env, proposals) && results == Invalid(env, proposals)
  {
    admitted, results := [], map[];
    for i := 0 to |proposals|
      invariant admitted == Admitted(env, proposals[..i]) && results == Invalid(env, proposals[..i])
    {
      var c := proposals[i];
      assert proposals[..i + 1][..i] == proposals[..i];
      match env.validate(c.id) {
        case None => admitted := admitted + [c];
        case Some(status) => results := results[c.id := status];
      }
    }
    assert proposals[..|proposals|] == proposals;
  }

  function DecisionMap(ds: seq<Decision>): map<CandidateId, Decision> {
    if ds == [] then map[] else DecisionMap(ds[..|ds| - 1])[ds[|ds| - 1].id := ds[|ds| - 1]]
  }

  lemma {:induction false} DecisionMapAt(ds: seq<Decision>, i: nat)
    requires i < |ds| && forall k, l :: 0 <= k < l < |ds| ==> ds[k].id != ds[l].id
    ensures ds[i].id in DecisionMap(ds) && DecisionMap(ds)[ds[i].id] == ds[i]
    decreases |ds|
  {
    if i < |ds| - 1 {
      DecisionMapAt(ds[..|ds| - 1], i);
      assert ds[i].id != ds[|ds| - 1].id;
    }
  }

  /** The start of the walk: a bundle is already stopped if validation refused any step. */
  function Start(plan: Plan, validated: map<CandidateId, Status>, bounded: bool): Progress {
    Progress(validated, DecisionMap(plan.decisions), [], bounded && validated != map[])
  }

  /** Decisions line up with candidates, and ids tell who was ordered and who lost. */
  ghost predicate PlanShape(plan: Plan) {
    && DistinctIds(plan.candidates) && DistinctIds(plan.ordered)
    && Ids(plan.ordered) <= Ids(plan.candidates)
    && |plan.decisions| == |plan.candidates|
    && (forall i :: 0 <= i < |plan.candidates| ==> DecisionShape(plan, i))
  }

  ghost predicate DecisionShape(plan: Plan, i: nat)
    requires i < |plan.candidates| && |plan.decisions| == |plan.candidates|
  {
    var d, id := plan.decisions[i], plan.candidates[i].id;
    && d.id == id && id in DecisionMap(plan.decisions) && DecisionMap(plan.decisions)[id] == d
    && (d.disposition == Execute <==> id in Ids(plan.ordered))
    && (d.disposition == Rejected <==> id in plan.rejected)
  }

  lemma {:induction false} PlanHasShape(policy: Policy, plan: Plan)
    requires DistinctIds(plan.candidates) && SoundPlan(policy, plan.candidates, plan)
    ensures PlanShape(plan)
  {
    OrderedIsSound(policy, plan.candidates);
    forall i | 0 <= i < |plan.candidates|
      ensures DecisionShape(plan, i)
    {
      var c := plan.candidates[i];
      assert forall k :: 0 <= k < |plan.decisions| ==>
             SoundDecision(plan.candidates, plan.ordered, k, plan.decisions[k]);
      DecisionMapAt(plan.decisions, i);
      if c !in plan.ordered {
        LoserNotOrdered(plan, c);
      }
    }
  }

  lemma {:induction false} LoserNotOrdered(plan: Plan, c: Candidate)
    requires DistinctIds(plan.candidates) && c in plan.candidates && c !in plan.ordered
    requires forall o :: o in plan.ordered ==> o in plan.candidates
    ensures c.id !in Ids(plan.ordered)
  {
    forall o | o in plan.ordered
      ensures o.id != c.id
    {
      if o.id == c.id {
        SameId(plan.candidates, o, c);
      }
    }
  }

  lemma {:induction false} StartFresh(plan: Plan, validated: map<CandidateId, Status>, bounded: bool)
    requires PlanShape(plan) && validated.Keys !! Ids(plan.candidates)
    ensures Fresh(Start(plan, validated, bounded), plan.ordered)
  {
    var start := Start(plan, validated, bounded);
    forall o | 0 <= o < |plan.ordered|
      ensures Unmet(start, plan.ordered[o])
    {
      assert plan.ordered[o] in plan.ordered;
      assert plan.ordered[o].id in Ids(plan.candidates);
      var c :| c in plan.candidates && c.id == plan.ordered[o].id;
      var i :| 0 <= i < |plan.candidates| && plan.candidates[i] == c;
      assert DecisionShape(plan, i);
    }
  }

  /** Arbitration orders some of the candidates, each once. */
  lemma {:induction false} OrderedIsSound(policy: Policy, cs: seq<Candidate>)
    requires DistinctIds(cs)
    ensures DistinctIds(Ordered(policy, cs))
    ensures forall c :: c in Ordered(policy, cs) ==> c in cs
  {
    match policy
    case Reject => WinnersConflictFree(cs); WinnersFrom(cs);
    case Serialize =>
    case Priority =>
      ByPriorityElements(cs);
      forall c | c in ByPriority(cs)
        ensures c in cs
      {
        assert c in multiset(ByPriority(cs));
      }
      PermutationDistinct(cs, ByPriority(cs));
  }

  lemma {:induction false} PermutationDistinct(cs: seq<Candidate>, ds: seq<Candidate>)
    requires DistinctIds(cs) && multiset(ds) == multiset(cs)
    ensures DistinctIds(ds)
  {
    forall i, j | 0 <= i < j < |ds|
      ensures ds[i].id != ds[j].id
    {
      if ds[i].id == ds[j].id {
        assert ds[i] in multiset(ds) && ds[j] in multiset(ds);
        assert ds[i] in cs && ds[j] in cs;
        OncePerCandidate(cs, ds[i]);
        TwiceInSequence(ds, i, j);
      }
    }
  }

  lemma {:induction false} OncePerCandidate(cs: seq<Candidate>, c: Candidate)
    requires DistinctIds(cs)
    ensures multiset(cs)[c] <= 1
  {
    if cs != [] {
      var n := |cs| - 1;
      assert cs == cs[..n] + [cs[n]];
      OncePerCandidate(cs[..n], c);
      if cs[n] == c {
        assert c !in cs[..n];
      }
    }
  }

  lemma {:induction false} TwiceInSequence(ds: seq<Candidate>, i: nat, j: nat)
    requires i < j < |ds| && ds[i] == ds[j]
    ensures multiset(ds)[ds[i]] >= 2
  {
    assert ds == ds[..j] + [ds[j]] + ds[j + 1..];
    assert ds[i] in ds[..j];
  }

  /**
   * Carries out one invocation's proposals. Results come back one for each proposal
   * and in proposal order, so completion cannot find a mismatch; the decisions mark
   * as executed exactly the candidates appended to the request's history; a result is
   * a success exactly when the action was started and succeeded.
   */
  method CommitPrepared(policy: Policy, env: Environment, bounded: bool, proposals: seq<Candidate>,
                        history: seq<Candidate>)
    returns (results: seq<ActionResult>, decisions: seq<Decision>, ghost plan: Plan, after: seq<Candidate>)
    requires DistinctIds(proposals) && env.Honest()
    ensures plan.candidates == Admitted(env, proposals) && SoundPlan(policy, plan.candidates, plan)
    ensures |results| == |proposals|
    ensures forall i :: 0 <= i < |proposals| ==> results[i].request == proposals[i].id.proposal
    ensures |decisions| == |plan.candidates|
    ensures forall i :: 0 <= i < |decisions| ==> decisions[i].id == plan.candidates[i].id
    ensures history <= after && DistinctIds(after[|history|..])
    ensures Ids(after[|history|..]) <= Ids(plan.ordered)
    ensures forall i :: 0 <= i < |decisions| ==>
              (decisions[i].disposition == Execute <==> decisions[i].id in Ids(after[|history|..]))
    ensures forall i :: 0 <= i < |proposals| ==>
              (results[i].status == Succeeded <==>
                 proposals[i].id in Ids(after[|history|..]) && env.execute(proposals[i].id) == Succeeded)
    ensures bounded ==> BundleOutcome(env, plan.ordered, plan.candidates == proposals, after[|history|..])
  {
    var admitted, validated := ValidateProposals(env, proposals);
    ValidationSplits(env, proposals);
    var p := Arbitrate(policy, admitted);
    plan := p;
    PlanHasShape(policy, plan);
    StartFresh(plan, validated, bounded);
    var progress := RunOrdered(env, bounded, Start(p, validated, bounded), p.ordered);
    after := history + progress.executed;
    assert after[|history|..] == progress.executed;
    results := CollectResults(env, proposals, p, validated, bounded, progress);
    decisions := CollectDecisions(env, p, validated, bounded, progress);
    if bounded {
      assert forall i :: 0 <= i < |p.ordered| ==> Unmet(Start(p, validated, bounded), p.ordered[i]);
      BundleStops(env, Start(p, validated, bounded), p.ordered);
      if validated == map[] {
        NoneInvalid(env, proposals);
      }
    }
  }

  method RunOrdered(env: Environment, bounded: bool, start: Progress, ordered: seq<Candidate>) returns (p: Progress)
    requires env.Honest() && Fresh(start, ordered)
    ensures p == Walk(env, bounded, start, ordered)
    ensures Settled(env, start, ordered, p)
  {
    p := start;
    for i := 0 to |ordered|
      invariant forall c :: c in ordered[..i] ==> c.id in start.decisions
      invariant p == Walk(env, bounded, start, ordered[..i])
    {
      assert ordered[..i + 1][..i] == ordered[..i];
      assert Unmet(start, ordered[i]);
      p := Step(env, bounded, p, ordered[i]);
    }
    assert ordered[..|ordered|] == ordered;
    WalkSettles(env, bounded, start, ordered);
  }

  method CollectResults(env: Environment, proposals: seq<Candidate>, plan: Plan, validated: map<CandidateId, Status>,
                        bounded: bool, p: Progress)
    returns (results: seq<ActionResult>)
    requires DistinctIds(proposals) && env.Honest() && plan.candidates == Admitted(env, proposals)
    requires validated == Invalid(env, proposals)
    requires PlanShape(plan) && Settled(env, Start(plan, validated, bounded), plan.ordered, p)
    ensures |results| == |proposals|
    ensures forall i :: 0 <= i < |proposals| ==> results[i].request == proposals[i].id.proposal
    ensures forall i :: 0 <= i < |proposals| ==>
              (results[i].status == Succeeded
               <==> proposals[i].id in Ids(p.executed) && env.execute(proposals[i].id) == Succeeded)
  {
    var final := WithLosers(p.results, plan.candidates, plan.rejected);
    results := [];
    for i := 0 to |proposals|
      invariant |results| == i
      invariant forall k :: 0 <= k < i ==> results[k].request == proposals[k].id.proposal
      invariant forall k :: 0 <= k < i ==>
        (results[k].status == Succeeded
         <==> proposals[k].id in Ids(p.executed) && env.execute(proposals[k].id) == Succeeded)
    {
      ResultOf(env, proposals, plan, bounded, p, proposals[i].id);
      results := results + [ActionResult(proposals[i].id.proposal, final[proposals[i].id])];
    }
  }

  method CollectDecisions(env: Environment, plan: Plan, validated: map<CandidateId, Status>, bounded: bool, p: Progress)
    returns (decisions: seq<Decision>)
    requires PlanShape(plan) && Settled(env, Start(plan, validated, bounded), plan.ordered, p)
    ensures |decisions| == |plan.candidates|
    ensures forall i :: 0 <= i < |decisions| ==> decisions[i].id == plan.candidates[i].id
    ensures forall i :: 0 <= i < |decisions| ==>
              (decisions[i].disposition == Execute <==> decisions[i].id in Ids(p.executed))
  {
    decisions := [];
    for i := 0 to |plan.candidates|
      invariant |decisions| == i
      invariant forall k :: 0 <= k < i ==> decisions[k].id == plan.candidates[k].id
      invariant forall k :: 0 <= k < i ==> (decisions[k].disposition == Execute <==> decisions[k].id in Ids(p.executed))
    {
      FinalDecision(env, plan, validated, bounded, p, i);
      decisions := decisions + [p.decisions[plan.decisions[i].id]];
    }
  }

  lemma {:induction false} FinalDecision(env: Environment, plan: Plan, validated: map<CandidateId, Status>,
                                         bounded: bool, p: Progress, i: nat)
    requires PlanShape(plan) && Settled(env, Start(plan, validated, bounded), plan.ordered, p) && i < |plan.candidates|
    ensures var id := plan.candidates[i].id;
            && plan.decisions[i].id == id && id in p.decisions && p.decisions[id].id == id
            && (p.decisions[id].disposition == Execute <==> id in Ids(p.executed))
  {
    var id := plan.candidates[i].id;
    assert DecisionShape(plan, i);
    if id in Ids(plan.ordered) {
      var _ := OrderedVerdict(env, plan, p, id);
    } else {
      assert SameFor(Start(plan, validated, bounded), p, id);
    }
  }

  lemma {:induction false} OrderedVerdict(env: Environment, plan: Plan, p: Progress, id: CandidateId)
    returns (c: Candidate)
    requires id in Ids(plan.ordered)
    requires forall i :: 0 <= i < |plan.ordered| ==> Verdict(env, p, plan.ordered[i])
    ensures c.id == id && Verdict(env, p, c)
  {
    c :| c in plan.ordered && c.id == id;
    var o :| 0 <= o < |plan.ordered| && plan.ordered[o] == c;
  }

  lemma {:induction false} ResultOf(env: Environment, proposals: seq<Candidate>, plan: Plan, bounded: bool,
                                    p: Progress, id: CandidateId)
    requires DistinctIds(proposals) && env.Honest() && plan.candidates == Admitted(env, proposals)
    requires PlanShape(plan) && Settled(env, Start(plan, Invalid(env, proposals), bounded), plan.ordered, p)
    requires id in Ids(proposals)
    ensures var final := WithLosers(p.results, plan.candidates, plan.rejected);
            && id in final
            && (final[id] == Succeeded <==> id in Ids(p.executed) && env.execute(id) == Succeeded)
  {
    ValidationSplits(env, proposals);
    WithLosersAt(p.results, plan.candidates, plan.rejected, id);
    if id in Ids(plan.ordered) {
      var c := OrderedVerdict(env, plan, p, id);
      var k := IndexOfId(plan.candidates, id);
      assert DecisionShape(plan, k);
    } else {
      assert SameFor(Start(plan, Invalid(env, proposals), bounded), p, id);
      if env.validate(id).Some? {
        InvalidHonest(env, proposals, id);
      } else {
        var k := IndexOfId(plan.candidates, id);
        assert DecisionShape(plan, k);
      }
    }
  }

  lemma {:induction false} IndexOfId(cs: seq<Candidate>, id: CandidateId) returns (i: nat)
    requires id in Ids(cs)
    ensures i < |cs| && cs[i].id == id
  {
    var c :| c in cs && c.id == id;
    i :| 0 <= i < |cs| && cs[i] == c;
  }

  // ------------------------------------------------------------------- bundles

  /**
   * What one attempt at a bounded bundle does: it starts a prefix of the ordered
   * steps, all but the last of which succeeded, and nothing at all if validation
   * refused some step.
   */
  ghost predicate BundleOutcome(env: Environment, ordered: seq<Candidate>, allValid: bool, started: seq<Candidate>) {
    && started <= ordered
    && (!allValid ==> started == [])
    && (forall i :: 0 <= i < |started| - 1 ==> env.execute(started[i].id) == Succeeded)
  }

  lemma {:induction false} NoneInvalid(env: Environment, proposals: seq<Candidate>)
    requires Invalid(env, proposals) == map[]
    ensures Admitted(env, proposals) == proposals
  {
    if proposals != [] {
      var n := |proposals| - 1;
      assert proposals[n].id !in Invalid(env, proposals);
      NoneInvalid(env, proposals[..n]);
      assert proposals == proposals[..n] + [proposals[n]];
    }
  }

  // ------------------------------------------------------------ commit orders

  /** The position of a candidate in the request's history. */
  function FinalOrder(history: seq<Candidate>, id: CandidateId): (order: Option<nat>)
    ensures order.Some? ==> order.value < |history| && history[order.value].id == id
    ensures order.None? ==> forall i :: 0 <= i < |history| ==> history[i].id != id
  {
    if history == [] then None
    else if history[0].id == id then Some(0)
    else
      var rest := FinalOrder(history[1..], id);
      if rest.Some? then Some(rest.value + 1) else None
  }

  /** The report of a whole request: each executed decision is given its place in the history. */
  method FinalReport(decisions: seq<Decision>, history: seq<Candidate>) returns (report: seq<Decision>)
    requires forall i, j :: 0 <= i < j < |decisions| ==> decisions[i].id != decisions[j].id
    requires forall i :: 0 <= i < |decisions| ==>
             (decisions[i].disposition == Execute <==> decisions[i].id in Ids(history))
    ensures |report| == |decisions|
    ensures forall i :: 0 <= i < |report| ==>
              report[i].id == decisions[i].id && report[i].disposition == decisions[i].disposition
    ensures forall i :: 0 <= i < |report| ==> (report[i].order.Some? <==> report[i].disposition == Execute)
    ensures forall i :: 0 <= i < |report| && report[i].order.Some? ==>
              report[i].order.value < |history| && history[report[i].order.value].id == report[i].id
    ensures forall i, j :: 0 <= i < j < |report| && report[i].order.Some? ==> report[i].order != report[j].order
  {
    report := [];
    for i := 0 to |decisions|
      invariant |report| == i
      invariant forall k :: 0 <= k < i ==>
                report[k].id == decisions[k].id && report[k].disposition == decisions[k].disposition
      invariant forall k :: 0 <= k < i ==> (report[k].order.Some? <==> report[k].disposition == Execute)
      invariant forall k :: 0 <= k < i && report[k].order.Some? ==>
                  report[k].order.value < |history| && history[report[k].order.value].id == report[k].id
    {
      var d := decisions[i];
      if d.disposition == Execute {
        ghost var k := IndexOfId(history, d.id);
      }
      report := report + [d.(order := if d.disposition == Execute then FinalOrder(history, d.id) else None)];
    }
  }
}
