/** Conflict arbitration for one invocation: mininet_ai/coordination/arbitration.py. */
module Arbitration {
  import opened Basics

  datatype Policy = Reject | Serialize | Priority

  /** Proposal ids are unique within an invocation, so the pair names one candidate. */
  datatype CandidateId = CandidateId(invocation: nat, proposal: string)

  datatype Candidate = Candidate(id: CandidateId, target: string, effects: set<string>, priority: int, sequence: nat) {
    function ConflictKeys(): set<string> {
      set effect | effect in effects :: target + ":" + effect
    }
  }

  /** The part of a capability definition that decides what an action may touch. */
  datatype Capability = Capability(provider: string, effects: set<string>)

  /** The providers whose declared effects are trusted. */
  const EFFECT_PROVIDERS: set<string> := {"substrate.action", "fake.openflow"}

  predicate DeclaresEffects(capability: Option<Capability>) {
    capability.Some? && capability.value.provider in EFFECT_PROVIDERS && capability.value.effects != {}
  }

  predicate Observes(capability: Option<Capability>) {
    capability.Some? && capability.value.provider == "substrate.observation"
  }

  /** Only the observation provider is read-only; an unknown provider may touch anything. */
  function EffectsOf(capability: Option<Capability>): (effects: set<string>)
    ensures effects == {} <==> Observes(capability)
    ensures DeclaresEffects(capability) ==> effects == capability.value.effects
    ensures !Observes(capability) && !DeclaresEffects(capability) ==> effects == {"*"}
  {
    if Observes(capability) then {}
    else if DeclaresEffects(capability) then capability.value.effects
    else {"*"}
  }

  predicate Conflicts(left: Candidate, right: Candidate) {
    if left.effects == {} || right.effects == {} then false
    else if "*" in left.effects || "*" in right.effects then true
    else left.ConflictKeys() * right.ConflictKeys() != {}
  }

  lemma {:induction false} ConflictsSymmetric(left: Candidate, right: Candidate)
    ensures Conflicts(left, right) == Conflicts(right, left)
  {
    assert left.ConflictKeys() * right.ConflictKeys() == right.ConflictKeys() * left.ConflictKeys();
  }

  /**
   * What the effects of a capability mean for conflicts: one that only observes conflicts
   * with nothing, and one without trusted effects with every candidate that may change
   * anything; a declared one conflicts where both name a wildcard or a common key.
   */
  lemma {:induction false} EffectsDecideConflicts(capability: Option<Capability>, c: Candidate, other: Candidate)
    requires c.effects == EffectsOf(capability)
    ensures Observes(capability) ==> !Conflicts(c, other)
    ensures !Observes(capability) && !DeclaresEffects(capability) ==> (Conflicts(c, other) <==> other.effects != {})
    ensures DeclaresEffects(capability) && "*" !in c.effects && "*" !in other.effects ==>
              (Conflicts(c, other) <==>
                 exists mine, theirs :: mine in capability.value.effects && theirs in other.effects
                                        && c.target + ":" + mine == other.target + ":" + theirs)
  {
    if Conflicts(c, other) && "*" !in c.effects && "*" !in other.effects {
      var key :| key in c.ConflictKeys() * other.ConflictKeys();
      var mine :| mine in c.effects && c.target + ":" + mine == key;
      var theirs :| theirs in other.effects && other.target + ":" + theirs == key;
    }
    forall mine, theirs | mine in c.effects && theirs in other.effects
        && c.target + ":" + mine == other.target + ":" + theirs
      ensures Conflicts(c, other)
    {
      assert c.target + ":" + mine in c.ConflictKeys() * other.ConflictKeys();
    }
  }

  ghost predicate ConflictFree(cs: seq<Candidate>) {
    forall i, j :: 0 <= i < j < |cs| ==> !Conflicts(cs[i], cs[j])
  }

  ghost predicate Compatible(cs: seq<Candidate>, ds: seq<Candidate>) {
    forall i, j :: 0 <= i < |cs| && 0 <= j < |ds| ==> !Conflicts(cs[i], ds[j])
  }

  ghost predicate DistinctIds(cs: seq<Candidate>) {
    forall i, j :: 0 <= i < j < |cs| ==> cs[i].id != cs[j].id
  }

  /** The first of `others` that conflicts with `c`, as `next(..., None)` picks it. */
  function FirstConflict(others: seq<Candidate>, c: Candidate): (winner: Option<Candidate>)
    ensures winner.None? <==> forall i :: 0 <= i < |others| ==> !Conflicts(others[i], c)
    ensures winner.Some? ==> winner.value in others && Conflicts(winner.value, c)
  {
    if others == [] then None
    else if Conflicts(others[0], c) then Some(others[0])
    else FirstConflict(others[1..], c)
  }

  // ---------------------------------------------------------------- decisions

  datatype Disposition = Execute | Rejected

  datatype Decision = Decision(id: CandidateId, disposition: Disposition, order: Option<nat>,
      winner: Option<CandidateId>)

  datatype Plan = Plan(candidates: seq<Candidate>, ordered: seq<Candidate>, rejected: set<CandidateId>,
      decisions: seq<Decision>)

  /** The candidates that win when each, in turn, must avoid all earlier winners. */
  function Winners(cs: seq<Candidate>): seq<Candidate> {
    if cs == [] then []
    else
      var last := cs[|cs| - 1];
      var prior := Winners(cs[..|cs| - 1]);
      if FirstConflict(prior, last).None? then prior + [last] else prior
  }

  lemma {:induction false} WinnersFrom(cs: seq<Candidate>)
    ensures forall w :: w in Winners(cs) ==> w in cs
  {
    if cs != [] {
      WinnersFrom(cs[..|cs| - 1]);
    }
  }

  lemma {:induction false} WinnersConflictFree(cs: seq<Candidate>)
    requires DistinctIds(cs)
    ensures ConflictFree(Winners(cs)) && DistinctIds(Winners(cs))
  {
    if cs != [] {
      var n := |cs| - 1;
      WinnersConflictFree(cs[..n]);
      WinnersFrom(cs[..n]);
      forall w | w in Winners(cs[..n])
        ensures w.id != cs[n].id
      {
        assert w in cs[..n];
        var k :| 0 <= k < n && cs[k] == w;
      }
    }
  }

  /** A candidate loses only to an earlier candidate that itself wins. */
  lemma {:induction false} LoserHasWinner(cs: seq<Candidate>, i: nat)
    requires i < |cs| && DistinctIds(cs)
    ensures cs[i] in Winners(cs) <==> FirstConflict(Winners(cs[..i]), cs[i]).None?
    decreases |cs|
  {
    var n := |cs| - 1;
    WinnersFrom(cs[..n]);
    if i < n {
      LoserHasWinner(cs[..n], i);
      assert cs[..n][..i] == cs[..i];
    }
  }

  lemma {:induction false} WinnersPrefix(cs: seq<Candidate>, n: nat)
    requires n <= |cs|
    ensures Winners(cs[..n]) <= Winners(cs)
    decreases |cs|
  {
    if n == |cs| {
      assert cs[..n] == cs;
    } else {
      var m := |cs| - 1;
      assert cs[..m][..n] == cs[..n];
      WinnersPrefix(cs[..m], n);
    }
  }

  /** Higher priority first; the admission sequence breaks ties. */
  predicate Before(a: Candidate, b: Candidate) {
    a.priority > b.priority || (a.priority == b.priority && a.sequence <= b.sequence)
  }

  /** Stable insertion, the effect of sorting on (-priority, sequence). */
  function Insert(c: Candidate, sorted: seq<Candidate>): seq<Candidate> {
    if sorted == [] then [c]
    else
      var n := |sorted| - 1;
      if Before(sorted[n], c) then sorted + [c] else Insert(c, sorted[..n]) + [sorted[n]]
  }

  function ByPriority(cs: seq<Candidate>): seq<Candidate> {
    if cs == [] then [] else Insert(cs[|cs| - 1], ByPriority(cs[..|cs| - 1]))
  }

  ghost predicate PriorityOrdered(cs: seq<Candidate>) {
    forall i, j :: 0 <= i < j < |cs| ==> Before(cs[i], cs[j])
  }

  lemma {:induction false} InsertElements(c: Candidate, sorted: seq<Candidate>)
    ensures multiset(Insert(c, sorted)) == multiset(sorted) + multiset{c}
  {
    if sorted != [] {
      var n := |sorted| - 1;
      assert sorted == sorted[..n] + [sorted[n]];
      InsertElements(c, sorted[..n]);
    }
  }

  lemma {:induction false} InsertOrders(c: Candidate, sorted: seq<Candidate>)
    requires PriorityOrdered(sorted)
    ensures PriorityOrdered(Insert(c, sorted))
  {
    if sorted != [] {
      var n := |sorted| - 1;
      if !Before(sorted[n], c) {
        InsertOrders(c, sorted[..n]);
        InsertElements(c, sorted[..n]);
        forall x | x in Insert(c, sorted[..n])
          ensures Before(x, sorted[n])
        {
          assert x in multiset(sorted[..n]) + multiset{c};
        }
      }
    }
  }

  lemma {:induction false} SplitLast(cs: seq<Candidate>)
    requires cs != []
    ensures multiset(cs) == multiset(cs[..|cs| - 1]) + multiset{cs[|cs| - 1]}
  {
    assert cs == cs[..|cs| - 1] + [cs[|cs| - 1]];
  }

  lemma {:induction false} ByPriorityElements(cs: seq<Candidate>)
    ensures multiset(ByPriority(cs)) == multiset(cs)
  {
    if cs != [] {
      var n := |cs| - 1;
      ByPriorityElements(cs[..n]);
      InsertElements(cs[n], ByPriority(cs[..n]));
      SplitLast(cs);
    }
  }

  lemma {:induction false} ByPriorityOrders(cs: seq<Candidate>)
    ensures PriorityOrdered(ByPriority(cs))
  {
    if cs != [] {
      var n := |cs| - 1;
      ByPriorityOrders(cs[..n]);
      InsertOrders(cs[n], ByPriority(cs[..n]));
    }
  }

  /** The priority policy executes the same candidates, highest priority first. */
  lemma {:induction false} ByPrioritySorts(cs: seq<Candidate>)
    ensures PriorityOrdered(ByPriority(cs))
    ensures multiset(ByPriority(cs)) == multiset(cs)
  {
    ByPriorityOrders(cs);
    ByPriorityElements(cs);
  }

  /** One invocation has one priority, so sorting leaves its proposals in order. */
  lemma {:induction false} OnePriorityKeepsOrder(cs: seq<Candidate>)
    requires forall i, j :: 0 <= i < j < |cs| ==> Before(cs[i], cs[j])
    ensures ByPriority(cs) == cs
  {
    if cs != [] {
      var n := |cs| - 1;
      OnePriorityKeepsOrder(cs[..n]);
      assert cs == cs[..n] + [cs[n]];
      if n > 0 {
        assert Before(cs[n - 1], cs[n]);
      }
    }
  }

  function Ordered(policy: Policy, cs: seq<Candidate>): seq<Candidate> {
    match policy
    case Reject => Winners(cs)
    case Serialize => cs
    case Priority => ByPriority(cs)
  }

  /** The decision for candidate `i`: its place among the executed ones, or the winner it lost to. */
  ghost predicate SoundDecision(cs: seq<Candidate>, ordered: seq<Candidate>, i: nat, d: Decision)
    requires i < |cs|
  {
    && d.id == cs[i].id
    && (d.disposition == Execute ==> d.order.Some? && d.order.value < |ordered| && ordered[d.order.value] == cs[i])
    && (d.disposition == Rejected ==>
          && d.order.None?
          && cs[i] !in ordered
          && exists w :: w in Winners(cs[..i]) && Conflicts(w, cs[i]) && d.winner == Some(w.id))
  }

  /** One sound decision for each candidate; the rejected set holds exactly the losers. */
  ghost predicate SoundDecisions(cs: seq<Candidate>, plan: Plan) {
    && |plan.decisions| == |cs|
    && (forall i :: 0 <= i < |cs| ==> SoundDecision(cs, plan.ordered, i, plan.decisions[i]))
    && (forall i :: 0 <= i < |cs| ==> (cs[i].id in plan.rejected <==> plan.decisions[i].disposition == Rejected))
  }

  ghost predicate SoundPlan(policy: Policy, cs: seq<Candidate>, plan: Plan) {
    && plan.candidates == cs
    && plan.ordered == Ordered(policy, cs)
    && SoundDecisions(cs, plan)
  }

  method Arbitrate(policy: Policy, cs: seq<Candidate>) returns (plan: Plan)
    requires DistinctIds(cs)
    ensures SoundPlan(policy, cs, plan)
  {
    if policy == Reject {
      plan := RejectConflicts(cs);
      return;
    }
    var ordered := if policy == Serialize then cs else ByPriority(cs);
    var decisions := ExecuteAll(policy, cs, ordered);
    plan := Plan(cs, ordered, {}, decisions);
  }

  lemma {:induction false} OrderedKeepsAll(policy: Policy, cs: seq<Candidate>, c: Candidate)
    requires policy != Reject && c in cs
    ensures c in Ordered(policy, cs)
  {
    if policy == Priority {
      ByPriorityElements(cs);
      assert c in multiset(cs) && c in multiset(ByPriority(cs));
    }
  }

  /** Every candidate is executed, at its place in the order. */
  method ExecuteAll(policy: Policy, cs: seq<Candidate>, ordered: seq<Candidate>) returns (decisions: seq<Decision>)
    requires policy != Reject && ordered == Ordered(policy, cs)
    ensures |decisions| == |cs|
    ensures forall i :: 0 <= i < |cs| ==>
              SoundDecision(cs, ordered, i, decisions[i]) && decisions[i].disposition == Execute
  {
    decisions := [];
    for i := 0 to |cs|
      invariant |decisions| == i
      invariant forall k :: 0 <= k < i ==>
                SoundDecision(cs, ordered, k, decisions[k]) && decisions[k].disposition == Execute
    {
      OrderedKeepsAll(policy, cs, cs[i]);
      var position: nat :| position < |ordered| && ordered[position] == cs[i];
      decisions := decisions + [Decision(cs[i].id, Execute, Some(position), None)];
    }
  }

  /** Decisions under the reject policy, in candidate order. */
  function RejectDecisions(cs: seq<Candidate>): (ds: seq<Decision>)
    ensures |ds| == |cs|
  {
    if cs == [] then []
    else
      var n := |cs| - 1;
      var winner := FirstConflict(Winners(cs[..n]), cs[n]);
      RejectDecisions(cs[..n])
      + [if winner.Some? then Decision(cs[n].id, Rejected, None, Some(winner.value.id))
         else Decision(cs[n].id, Execute, Some(|Winners(cs[..n])|), None)]
  }

  function LoserIds(cs: seq<Candidate>): set<CandidateId> {
    if cs == [] then {}
    else
      var n := |cs| - 1;
      LoserIds(cs[..n]) + if FirstConflict(Winners(cs[..n]), cs[n]).Some? then {cs[n].id} else {}
  }

  lemma {:induction false} RejectDecisionsSound(cs: seq<Candidate>, i: nat)
    requires i < |cs| && DistinctIds(cs)
    ensures SoundDecision(cs, Winners(cs), i, RejectDecisions(cs)[i])
    decreases |cs|
  {
    var n := |cs| - 1;
    if i < n {
      RejectDecisionsSound(cs[..n], i);
      assert cs[..n][..i] == cs[..i];
      assert cs[i] != cs[n];
    } else {
      WinnersFrom(cs[..n]);
    }
  }

  lemma {:induction false} LoserIdsExact(cs: seq<Candidate>)
    requires DistinctIds(cs)
    ensures forall i :: 0 <= i < |cs| ==> (cs[i].id in LoserIds(cs) <==> RejectDecisions(cs)[i].disposition == Rejected)
    ensures forall id :: id in LoserIds(cs) ==> exists i :: 0 <= i < |cs| && cs[i].id == id
  {
    if cs != [] {
      var n := |cs| - 1;
      LoserIdsExact(cs[..n]);
      assert cs[n].id !in LoserIds(cs[..n]);
      forall id | id in LoserIds(cs)
        ensures exists i :: 0 <= i < |cs| && cs[i].id == id
      {
        if id in LoserIds(cs[..n]) {
          var i :| 0 <= i < n && cs[..n][i].id == id;
          assert cs[i].id == id;
        }
      }
    }
  }

  /** What the next candidate adds to winners, losers and decisions. */
  lemma {:induction false} TakeOneMore(cs: seq<Candidate>, i: nat)
    requires i < |cs|
    ensures var winner := FirstConflict(Winners(cs[..i]), cs[i]);
            && Winners(cs[..i + 1]) == (if winner.Some? then Winners(cs[..i]) else Winners(cs[..i]) + [cs[i]])
            && LoserIds(cs[..i + 1]) == LoserIds(cs[..i]) + (if winner.Some? then {cs[i].id} else {})
            && RejectDecisions(cs[..i + 1]) == RejectDecisions(cs[..i])
               + [if winner.Some? then Decision(cs[i].id, Rejected, None, Some(winner.value.id))
                  else Decision(cs[i].id, Execute, Some(|Winners(cs[..i])|), None)]
  {
    assert cs[..i + 1][..i] == cs[..i];
  }

  method RejectConflicts(cs: seq<Candidate>) returns (plan: Plan)
    requires DistinctIds(cs)
    ensures SoundPlan(Reject, cs, plan)
  {
    var winners: seq<Candidate> := [];
    var rejected: set<CandidateId> := {};
    var decisions: seq<Decision> := [];
    for i := 0 to |cs|
      invariant winners == Winners(cs[..i])
      invariant decisions == RejectDecisions(cs[..i])
      invariant rejected == LoserIds(cs[..i])
    {
      var c := cs[i];
      TakeOneMore(cs, i);
      var winner := FirstConflict(winners, c);
      if winner.Some? {
        rejected := rejected + {c.id};
        decisions := decisions + [Decision(c.id, Rejected, None, Some(winner.value.id))];
      } else {
        decisions := decisions + [Decision(c.id, Execute, Some(|winners|), None)];
        winners := winners + [c];
      }
    }
    assert cs[..|cs|] == cs;
    plan := Plan(cs, winners, rejected, decisions);
    forall i | 0 <= i < |cs|
      ensures SoundDecision(cs, winners, i, decisions[i])
    {
      RejectDecisionsSound(cs, i);
    }
    LoserIdsExact(cs);
  }
}
