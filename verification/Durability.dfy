/** Recruitment sufficiency, leader-led policy transitions, and the quorum intersections
    every failover argument rests on. */
module Durability {
  import opened Types
  import opened Collections
  import opened Policy

  datatype PolicyWithCohort = PolicyWithCohort(policy: Policy, cohort: seq<ID>)

  /** A set of cohort members whose acknowledgement makes a write durable. */
  ghost predicate Quorum(p: PolicyWithCohort, nodes: set<string>) {
    nodes <= Keys(p.cohort) && Satisfies(p.policy, nodes)
  }

  ghost predicate Meet(a: set<string>, b: set<string>) { exists k :: k in a && k in b }

  // ---------------------------------------------------------------- sufficient recruitment

  predicate MemberOf(ids: seq<ID>, id: ID) { ClusterKey(id) in Keys(ids) }

  /** Whether every recruited node belongs to the cohort. */
  predicate RecruitedSubset(cohort: seq<ID>, recruited: seq<ID>) {
    forall id :: id in recruited ==> MemberOf(cohort, id)
  }

  predicate RecruitedMajority(cohort: seq<ID>, recruited: seq<ID>) {
    var c, r := NormalizeIDs(cohort), NormalizeIDs(recruited);
    RecruitedSubset(c, r) && |r| >= |c| / 2 + 1
  }

  function UnrecruitedOf(cohort: seq<ID>, recruited: seq<ID>): seq<ID> {
    Filter(cohort, (id: ID) => !MemberOf(recruited, id))
  }

  predicate UnrecruitedCannotCommit(policy: Policy, cohort: seq<ID>, recruited: seq<ID>) {
    var c, r := NormalizeIDs(cohort), NormalizeIDs(recruited);
    RecruitedSubset(c, r) && !SatisfiedBy(policy, UnrecruitedOf(c, r))
  }

  /** A strict majority, whose leftovers cannot make a write durable by themselves. */
  predicate CheckSufficientRecruitment(policy: Policy, cohort: seq<ID>, recruited: seq<ID>) {
    RecruitedMajority(cohort, recruited) && UnrecruitedCannotCommit(policy, cohort, recruited)
  }

  /** The same condition on sets of keys. */
  ghost predicate Sufficient(policy: Policy, cohort: set<string>, recruited: set<string>) {
    recruited <= cohort && 2 * |recruited| > |cohort| && !Satisfies(policy, cohort - recruited)
  }

  lemma UnrecruitedKeys(cohort: seq<ID>, recruited: seq<ID>)
    ensures Keys(UnrecruitedOf(cohort, recruited)) == Keys(cohort) - Keys(recruited)
  {
  }

  lemma RecruitedSubsetMeaning(cohort: seq<ID>, recruited: seq<ID>)
    ensures RecruitedSubset(cohort, recruited) <==> Keys(recruited) <= Keys(cohort)
  {
  }

  /** Counting normalized lists decides the set condition, whatever duplicates the lists carry. */
  lemma SufficientRecruitmentMeaning(policy: Policy, cohort: seq<ID>, recruited: seq<ID>)
    ensures CheckSufficientRecruitment(policy, cohort, recruited)
            <==> Sufficient(policy, Keys(cohort), Keys(recruited))
  {
    var c, r := NormalizeIDs(cohort), NormalizeIDs(recruited);
    SatisfiedByMeaning(policy, UnrecruitedOf(c, r));
    UnrecruitedKeys(c, r);
    RecruitedSubsetMeaning(c, r);
  }

  /** Competing recruitments of one cohort share a node. */
  lemma RecruitmentsMeet(p: Policy, q: Policy, cohort: set<string>, a: set<string>, b: set<string>)
    requires Sufficient(p, cohort, a) && Sufficient(q, cohort, b)
    ensures Meet(a, b)
  {
    var k := Pigeonhole(a, b, cohort);
  }

  /** A sufficient recruitment sees every quorum of the cohort it recruited. */
  lemma RecruitmentMeetsQuorum(p: PolicyWithCohort, recruited: set<string>, nodes: set<string>)
    requires Sufficient(p.policy, Keys(p.cohort), recruited)
    requires Quorum(p, nodes)
    ensures Meet(recruited, nodes)
  {
    if forall k :: k in nodes ==> k !in recruited {
      SatisfiesMonotone(p.policy, nodes, Keys(p.cohort) - recruited);
      assert false;
    }
  }

  // ---------------------------------------------------------------- policy transitions

  datatype PolicyTransition = PolicyTransition(both: PolicyWithCohort, incoming: PolicyWithCohort)

  datatype TransitionError = FamiliesDiffer | CountAndCohortChanged | CohortsUnrelated

  function RequiredCount(p: Policy): nat { if p.AtLeastN? then p.n else 2 }

  /** Length plus one-way membership: exact only for lists without duplicates. */
  predicate SameCohort(a: seq<ID>, b: seq<ID>) {
    |a| == |b| && forall id :: id in b ==> MemberOf(a, id)
  }

  function IntersectStandbys(a: seq<ID>, b: seq<ID>): seq<ID> { Filter(a, (id: ID) => MemberOf(b, id)) }

  predicate CohortIsSubsetOf(a: seq<ID>, b: seq<ID>) { |IntersectStandbys(a, b)| == |a| }

  function BuildPolicyTransition(outgoing: PolicyWithCohort, incoming: PolicyWithCohort)
    : Result<PolicyTransition, TransitionError>
  {
    var outN, inN := RequiredCount(outgoing.policy), RequiredCount(incoming.policy);
    if outgoing.policy.AtLeastN? != incoming.policy.AtLeastN? then Err(FamiliesDiffer)
    else
      var cohortSame, nSame := SameCohort(outgoing.cohort, incoming.cohort), outN == inN;
      if cohortSame && nSame then Ok(PolicyTransition(incoming, incoming))
      else if !cohortSame && !nSame then Err(CountAndCohortChanged)
      else if nSame then
        if CohortIsSubsetOf(incoming.cohort, outgoing.cohort) then Ok(PolicyTransition(incoming, incoming))
        else if CohortIsSubsetOf(outgoing.cohort, incoming.cohort) then Ok(PolicyTransition(outgoing, incoming))
        else Err(CohortsUnrelated)
      else if inN > outN then Ok(PolicyTransition(incoming, incoming))
      else Ok(PolicyTransition(outgoing, incoming))
  }

  lemma SubsetMeaning(a: seq<ID>, b: seq<ID>)
    ensures CohortIsSubsetOf(a, b) <==> Keys(a) <= Keys(b)
  {
    FilterAll(a, (id: ID) => MemberOf(b, id));
    if Keys(a) <= Keys(b) {
      forall id | id in a ensures MemberOf(b, id) { assert ClusterKey(id) in Keys(a); }
    }
  }

  /** The loop behind `SameCohort`. */
  method CompareCohorts(a: seq<ID>, b: seq<ID>) returns (same: bool)
    ensures same == SameCohort(a, b)
    ensures same && |Keys(b)| == |b| ==> Keys(a) == Keys(b)
  {
    if |a| != |b| {
      return false;
    }
    var aKeys := Keys(a);
    for i := 0 to |b|
      invariant forall j :: 0 <= j < i ==> MemberOf(a, b[j])
    {
      if ClusterKey(b[i]) !in aKeys {
        assert !MemberOf(a, b[i]);
        return false;
      }
    }
    if |Keys(b)| == |b| { SameCohortOnDistinct(a, b); }
    return true;
  }

  lemma {:induction false} KeysCount(ids: seq<ID>)
    ensures |Keys(ids)| <= |ids|
  {
    if ids != [] {
      KeysCount(ids[1..]);
      assert Keys(ids) == Keys(ids[1..]) + {ClusterKey(ids[0])};
    }
  }

  lemma SameCohortOnDistinct(a: seq<ID>, b: seq<ID>)
    requires SameCohort(a, b) && |Keys(b)| == |b|
    ensures Keys(a) == Keys(b)
  {
    KeysCount(a);
    assert Keys(b) <= Keys(a) by {
      forall k | k in Keys(b) ensures k in Keys(a) {
        var id :| id in b && ClusterKey(id) == k;
        assert MemberOf(a, id);
      }
    }
    SubsetCount(Keys(b), Keys(a));
  }

  lemma SameCohortIsEquality(a: seq<ID>, b: seq<ID>)
    requires |Keys(a)| == |a| && |Keys(b)| == |b|
    ensures SameCohort(a, b) <==> Keys(a) == Keys(b)
  {
    if SameCohort(a, b) { SameCohortOnDistinct(a, b); }
  }

  lemma SameCohortOneWay(a: seq<ID>, b: seq<ID>)
    requires SameCohort(a, b)
    ensures Keys(b) <= Keys(a)
  {
  }

  /** `Both` lies inside both cohorts, unless a lowered count meets two lists of equal length that only
      duplicates make look alike. */
  lemma BothCohortInside(outgoing: PolicyWithCohort, incoming: PolicyWithCohort)
    requires BuildPolicyTransition(outgoing, incoming).Ok?
    ensures var both := BuildPolicyTransition(outgoing, incoming).value.both;
            Keys(both.cohort) <= Keys(outgoing.cohort) && Keys(both.cohort) <= Keys(incoming.cohort)
            <==> (RequiredCount(outgoing.policy) > RequiredCount(incoming.policy) ==>
                    Keys(outgoing.cohort) <= Keys(incoming.cohort))
  {
    SubsetMeaning(incoming.cohort, outgoing.cohort);
    SubsetMeaning(outgoing.cohort, incoming.cohort);
    if SameCohort(outgoing.cohort, incoming.cohort) {
      SameCohortOneWay(outgoing.cohort, incoming.cohort);
    }
  }

  /** Such lists exist: [x, x] passes for [x, y], and then `Both` can need a node the new cohort lacks. */
  lemma DuplicatesDefeatBoth()
    ensures exists outgoing, incoming ::
              && BuildPolicyTransition(outgoing, incoming).Ok?
              && !(Keys(BuildPolicyTransition(outgoing, incoming).value.both.cohort) <= Keys(incoming.cohort))
  {
    var x: ID, y: ID := RawID("p", "c", "x"), RawID("p", "c", "y");
    var outgoing, incoming := PolicyWithCohort(AtLeastN(2), [x, y]), PolicyWithCohort(AtLeastN(1), [x, x]);
    assert ClusterKey(x)[2] != ClusterKey(y)[2];
    assert ClusterKey(y) in Keys(outgoing.cohort) && ClusterKey(y) !in Keys(incoming.cohort);
    assert SameCohort(outgoing.cohort, incoming.cohort) by { assert MemberOf(outgoing.cohort, x); }
    assert BuildPolicyTransition(outgoing, incoming) == Ok(PolicyTransition(outgoing, incoming));
  }

  /** A cohort list is duplicate-free when it has as many keys as entries. */
  ghost predicate DuplicateFree(p: PolicyWithCohort) { |Keys(p.cohort)| == |p.cohort| }

  /** The changes a leader may make by itself: the family stays, and either the cohort does, or the count does and one
      cohort contains the other. */
  ghost predicate Supported(outgoing: PolicyWithCohort, incoming: PolicyWithCohort) {
    var a, b := Keys(outgoing.cohort), Keys(incoming.cohort);
    && outgoing.policy.AtLeastN? == incoming.policy.AtLeastN?
    && (a == b || (outgoing.policy == incoming.policy && (a <= b || b <= a)))
  }

  /** Over duplicate-free cohorts exactly the supported changes are accepted. */
  lemma TransitionExists(outgoing: PolicyWithCohort, incoming: PolicyWithCohort)
    requires DuplicateFree(outgoing) && DuplicateFree(incoming)
    ensures BuildPolicyTransition(outgoing, incoming).Ok? <==> Supported(outgoing, incoming)
  {
    SameCohortIsEquality(outgoing.cohort, incoming.cohort);
    SubsetMeaning(incoming.cohort, outgoing.cohort);
    SubsetMeaning(outgoing.cohort, incoming.cohort);
    hide Keys, SameCohort, CohortIsSubsetOf;
  }

  /** What an accepted change installs afterwards is the incoming rule, and over duplicate-free cohorts `Both` is the
      conjunction: its quorums are exactly the sets that are quorums of the old and of the new rule. */
  lemma TransitionIsExact(outgoing: PolicyWithCohort, incoming: PolicyWithCohort, nodes: set<string>)
    requires BuildPolicyTransition(outgoing, incoming).Ok?
    ensures Quorum(BuildPolicyTransition(outgoing, incoming).value.incoming, nodes) <==> Quorum(incoming, nodes)
    ensures DuplicateFree(outgoing) && DuplicateFree(incoming) ==>
              (Quorum(BuildPolicyTransition(outgoing, incoming).value.both, nodes) <==>
               Quorum(outgoing, nodes) && Quorum(incoming, nodes))
  {
    hide Keys, Satisfies, SameCohort, CohortIsSubsetOf;
    if DuplicateFree(outgoing) && DuplicateFree(incoming)
       && Quorum(BuildPolicyTransition(outgoing, incoming).value.both, nodes)
    {
      BothRefinesBoth(outgoing, incoming, nodes);
    }
  }

  /** Over duplicate-free cohorts every `Both` quorum is a quorum of the old and of the new rule. */
  lemma BothRefinesBoth(outgoing: PolicyWithCohort, incoming: PolicyWithCohort, nodes: set<string>)
    requires BuildPolicyTransition(outgoing, incoming).Ok?
    requires DuplicateFree(outgoing) && DuplicateFree(incoming)
    requires Quorum(BuildPolicyTransition(outgoing, incoming).value.both, nodes)
    ensures Quorum(outgoing, nodes) && Quorum(incoming, nodes)
  {
    BothCohortInside(outgoing, incoming);
    if SameCohort(outgoing.cohort, incoming.cohort) {
      SameCohortOnDistinct(outgoing.cohort, incoming.cohort);
    }
  }

  /** While a proposal is undecided, whatever is durable under `Both` is seen by the decision's recruits. */
  lemma RecruitmentMeetsBothQuorum(
    outgoing: PolicyWithCohort, incoming: PolicyWithCohort, recruited: set<string>, nodes: set<string>)
    requires BuildPolicyTransition(outgoing, incoming).Ok?
    requires DuplicateFree(outgoing) && DuplicateFree(incoming)
    requires Sufficient(outgoing.policy, Keys(outgoing.cohort), recruited)
    requires Quorum(BuildPolicyTransition(outgoing, incoming).value.both, nodes)
    ensures Meet(recruited, nodes)
  {
    BothRefinesBoth(outgoing, incoming, nodes);
    RecruitmentMeetsQuorum(outgoing, recruited, nodes);
  }

  /** What a recruitment round established about the rule it found: the decision is frozen and, if a
      proposal is outstanding on it, the recruits can finish that proposal. */
  ghost predicate Frozen(decision: PolicyWithCohort, recruits: set<string>) {
    Sufficient(decision.policy, Keys(decision.cohort), recruits * Keys(decision.cohort))
  }

  ghost predicate CanFinish(decision: PolicyWithCohort, proposal: PolicyWithCohort, recruits: set<string>) {
    && BuildPolicyTransition(decision, proposal).Ok?
    && var both := BuildPolicyTransition(decision, proposal).value.both;
       Satisfies(both.policy, recruits * Keys(both.cohort))
  }

  /** A round that found `second` undecided on `first` overlaps a round that found `second` decided,
      although the two count different cohorts or different numbers. */
  lemma CrossEpochOverlap(
    first: PolicyWithCohort, second: PolicyWithCohort, early: set<string>, late: set<string>)
    requires DuplicateFree(first) && DuplicateFree(second)
    requires CanFinish(first, second, early) && Frozen(second, late)
    ensures Meet(early, late)
  {
    var both := BuildPolicyTransition(first, second).value.both;
    var finishers := early * Keys(both.cohort);
    BothRefinesBoth(first, second, finishers);
    RecruitmentMeetsQuorum(second, late * Keys(second.cohort), finishers);
    var k :| k in late * Keys(second.cohort) && k in finishers;
    assert k in early && k in late;
  }

  // ---------------------------------------------------------------- the limits of freezing the decision

  /** Recruits that freeze `decision` and could make a write durable under it see every quorum of `proposal`, were
      that already decided elsewhere. */
  ghost predicate FreezesProposalToo(decision: PolicyWithCohort, proposal: PolicyWithCohort) {
    forall recruits, nodes :: Finishing(decision, recruits) && Quorum(proposal, nodes) ==> Meet(recruits, nodes)
  }

  ghost predicate Finishing(decision: PolicyWithCohort, recruits: set<string>) {
    Frozen(decision, recruits) && Satisfies(decision.policy, recruits * Keys(decision.cohort))
  }

  /** Recruits that can finish a proposal satisfy the policy of the decision it stands on. */
  lemma FinishersSatisfyDecision(decision: PolicyWithCohort, proposal: PolicyWithCohort, recruits: set<string>)
    requires DuplicateFree(decision) && DuplicateFree(proposal)
    requires Frozen(decision, recruits) && CanFinish(decision, proposal, recruits)
    ensures Finishing(decision, recruits)
  {
    hide BuildPolicyTransition, Keys, Satisfies, Sufficient;
    var both := BuildPolicyTransition(decision, proposal).value.both;
    var finishers := recruits * Keys(both.cohort);
    BothRefinesBoth(decision, proposal, finishers);
    SatisfiesMonotone(decision.policy, finishers, recruits * Keys(decision.cohort));
  }

  /** The fewest members of a cohort of `size` that freeze it when a write needs `n`. */
  function FreezeCount(size: nat, n: nat): nat {
    var majority, leftover := size / 2 + 1, size - n + 1;
    if majority > leftover then majority else leftover
  }

  /** The fewest that freeze it and can also finish a write needing `n`. */
  function FewestRecruits(size: nat, n: nat): nat {
    if FreezeCount(size, n) > n then FreezeCount(size, n) else n
  }

  lemma FrozenCount(p: PolicyWithCohort, r: set<string>)
    requires p.policy.AtLeastN?
    ensures Frozen(p, r) <==> |r * Keys(p.cohort)| >= FreezeCount(|Keys(p.cohort)|, p.policy.n)
    ensures Finishing(p, r) <==> |r * Keys(p.cohort)| >= FewestRecruits(|Keys(p.cohort)|, p.policy.n)
  {
    hide Keys;
    var cohort := Keys(p.cohort);
    assert |cohort - r * cohort| == |cohort| - |r * cohort|;
  }

  lemma {:induction false} SubsetOfSize(s: set<string>, n: nat) returns (t: set<string>)
    requires n <= |s|
    ensures t <= s && |t| == n
  {
    if n == 0 {
      t := {};
    } else {
      var x :| x in s;
      var rest := SubsetOfSize(s - {x}, n - 1);
      t := rest + {x};
    }
  }

  function Positive(x: int): nat { if x > 0 then x else 0 }

  /** Whether any `m` members of `a` meet any `n` members of `b`: the `m` spend themselves outside `b` first. */
  predicate MustMeet(a: set<string>, b: set<string>, m: nat, n: nat) {
    |a| < m || |b| < n + Positive(m - |a - b|)
  }

  lemma AvoidingSets(a: set<string>, b: set<string>, m: nat, n: nat) returns (r: set<string>, q: set<string>)
    requires !MustMeet(a, b, m, n)
    ensures r <= a && q <= b && |r| >= m && |q| >= n && !Meet(r, q)
  {
    var outside := a - b;
    if m <= |outside| {
      r, q := outside, b;
    } else {
      assert a == outside + a * b;
      assert |a| == |outside| + |a * b|;
      var inside := SubsetOfSize(a * b, m - |outside|);
      r, q := outside + inside, b - inside;
    }
  }

  lemma CountedSetsMeet(a: set<string>, b: set<string>, m: nat, n: nat, r: set<string>, q: set<string>)
    requires MustMeet(a, b, m, n) && |r * a| >= m && |q * b| >= n
    ensures Meet(r, q)
  {
    SubsetCount(r * a, a);
    SubsetCount(q * b, b);
    var inside := r * a * b;
    assert r * a == inside + (r * a - b);
    assert |r * a| == |inside| + |r * a - b|;
    SubsetCount(r * a - b, a - b);
    if inside != {} {
      var k := Pigeonhole(inside, q * b, b);
      assert k in r && k in q;
    }
  }

  /** For counting policies, whatever the cohorts, it is a count. */
  lemma CountingFreezesProposal(a: PolicyWithCohort, b: PolicyWithCohort)
    requires a.policy.AtLeastN? && b.policy.AtLeastN?
    ensures FreezesProposalToo(a, b) <==>
            MustMeet(Keys(a.cohort), Keys(b.cohort), FewestRecruits(|Keys(a.cohort)|, a.policy.n), b.policy.n)
  {
    hide Keys, FewestRecruits, MustMeet, Frozen, Meet;
    var ka, kb := Keys(a.cohort), Keys(b.cohort);
    var m, n := FewestRecruits(|ka|, a.policy.n), b.policy.n;
    if MustMeet(ka, kb, m, n) {
      forall r, q | Finishing(a, r) && Quorum(b, q) ensures Meet(r, q) {
        FrozenCount(a, r);
        assert q * kb == q;
        CountedSetsMeet(ka, kb, m, n, r, q);
      }
    } else {
      var r, q := AvoidingSets(ka, kb, m, n);
      assert r * ka == r;
      FrozenCount(a, r);
      assert Quorum(b, q);
    }
  }

  /** A transition that only tightens (a smaller cohort, a larger count, or no change) is always frozen too:
      `Both` is then the proposal itself, so a proposal quorum is a quorum of the decision. */
  lemma TighteningFreezesProposal(decision: PolicyWithCohort, proposal: PolicyWithCohort)
    requires DuplicateFree(decision) && DuplicateFree(proposal)
    requires BuildPolicyTransition(decision, proposal).Ok?
    requires BuildPolicyTransition(decision, proposal).value.both == proposal
    ensures FreezesProposalToo(decision, proposal)
  {
    hide BuildPolicyTransition, Keys, Satisfies, Sufficient;
    forall recruits, nodes | Frozen(decision, recruits) && Quorum(proposal, nodes)
      ensures Meet(recruits, nodes)
    {
      RecruitmentMeetsBothQuorum(decision, proposal, recruits * Keys(decision.cohort), nodes);
      var k :| k in recruits * Keys(decision.cohort) && k in nodes;
    }
  }

  /** For counting policies the loosening transitions are frozen too exactly when the fewest recruits that
      pass leave less than a proposal quorum behind, or when no recruitment can pass at all. */
  lemma LooseningFreezesProposal(decision: PolicyWithCohort, proposal: PolicyWithCohort)
    requires DuplicateFree(decision) && DuplicateFree(proposal)
    requires decision.policy.AtLeastN? && proposal.policy.AtLeastN?
    requires BuildPolicyTransition(decision, proposal).Ok?
    requires BuildPolicyTransition(decision, proposal).value.both == decision
    ensures Keys(decision.cohort) <= Keys(proposal.cohort)
    ensures FreezesProposalToo(decision, proposal) <==>
            (decision.policy.n > |decision.cohort|
             || |proposal.cohort| < proposal.policy.n + FewestRecruits(|decision.cohort|, decision.policy.n))
  {
    BothCohortInside(decision, proposal);
    if SameCohort(decision.cohort, proposal.cohort) { SameCohortOnDistinct(decision.cohort, proposal.cohort); }
    hide BuildPolicyTransition, Keys, SameCohort, FreezesProposalToo;
    CountingFreezesProposal(decision, proposal);
    var d, p := Keys(decision.cohort), Keys(proposal.cohort);
    SubsetCount(d, p);
    assert d - p == {};
  }

  /** So adding one node under AT_LEAST_N is frozen exactly when N is a strict majority of the grown cohort: never for
      AT_LEAST_2 and four nodes or more. */
  lemma GrowthByOneIsFrozen(decision: PolicyWithCohort, proposal: PolicyWithCohort)
    requires DuplicateFree(decision) && DuplicateFree(proposal)
    requires decision.policy.AtLeastN? && decision.policy == proposal.policy
    requires |proposal.cohort| == |decision.cohort| + 1 && Keys(decision.cohort) <= Keys(proposal.cohort)
    ensures BuildPolicyTransition(decision, proposal) == Ok(PolicyTransition(decision, proposal))
    ensures FreezesProposalToo(decision, proposal) <==> 2 * decision.policy.n > |proposal.cohort|
  {
    hide Keys, FreezesProposalToo;
    SubsetMeaning(decision.cohort, proposal.cohort);
    SubsetMeaning(proposal.cohort, decision.cohort);
    if Keys(proposal.cohort) <= Keys(decision.cohort) { SubsetCount(Keys(proposal.cohort), Keys(decision.cohort)); }
    LooseningFreezesProposal(decision, proposal);
  }

  /** Replacing a member in two steps, out and in, is frozen at both exactly when N is a strict majority. */
  lemma ReplacingAMemberIsFrozen(before: PolicyWithCohort, middle: PolicyWithCohort, after: PolicyWithCohort)
    requires DuplicateFree(before) && DuplicateFree(middle) && DuplicateFree(after)
    requires before.policy.AtLeastN? && before.policy == middle.policy == after.policy
    requires |before.cohort| == |after.cohort| == |middle.cohort| + 1
    requires Keys(middle.cohort) <= Keys(before.cohort) && Keys(middle.cohort) <= Keys(after.cohort)
    ensures BuildPolicyTransition(before, middle).Ok? && BuildPolicyTransition(middle, after).Ok?
    ensures FreezesProposalToo(before, middle) && FreezesProposalToo(middle, after) <==>
            2 * before.policy.n > |before.cohort|
  {
    hide Keys, FreezesProposalToo;
    GrowthByOneIsFrozen(middle, after);
    SubsetMeaning(middle.cohort, before.cohort);
    TighteningFreezesProposal(before, middle);
  }

  ghost predicate Spans(nodes: set<string>) { Satisfies(MultiCell, nodes) }

  /** A member of a cohort that recruits may leave out: the rest is a majority and still spans two cells. */
  ghost predicate Spare(cohort: set<string>, x: string) { x in cohort && |cohort| >= 3 && Spans(cohort - {x}) }

  /** For MULTI_CELL a grown cohort is frozen too exactly when what it adds, together with any one spare member,
      stays in one cell, or when no recruitment can pass at all. */
  lemma MultiCellGrowthFreezesProposal(decision: PolicyWithCohort, proposal: PolicyWithCohort)
    requires decision.policy.MultiCell? && proposal.policy.MultiCell?
    requires Keys(decision.cohort) <= Keys(proposal.cohort)
    ensures var d, added := Keys(decision.cohort), Keys(proposal.cohort) - Keys(decision.cohort);
            FreezesProposalToo(decision, proposal) <==>
            (!Spans(d) || (!Spans(added) && forall x :: Spare(d, x) ==> !Spans(added + {x})))
  {
    hide Keys, Satisfies;
    var d, added := Keys(decision.cohort), Keys(proposal.cohort) - Keys(decision.cohort);
    if Spans(d) && Spans(added) {
      SpareRecruits(decision, proposal, d, {});
      assert added + {} == added;
    } else if x :| Spans(d) && Spare(d, x) && Spans(added + {x}) {
      SpareRecruits(decision, proposal, d - {x}, {x});
    } else {
      forall r, q | Finishing(decision, r) && Quorum(proposal, q) ensures Meet(r, q) {
        if !Meet(r, q) {
          assert q - r == q;
          MissedQuorum(d, added, r * d, q);
        }
      }
    }
  }

  lemma SpareRecruits(decision: PolicyWithCohort, proposal: PolicyWithCohort, r: set<string>, left: set<string>)
    requires decision.policy.MultiCell? && proposal.policy.MultiCell?
    requires Keys(decision.cohort) <= Keys(proposal.cohort)
    requires var d := Keys(decision.cohort); r + left == d && r !! left && |left| <= 1 && (left == {} || |d| >= 3)
    requires Spans(r) && Spans(Keys(proposal.cohort) - Keys(decision.cohort) + left)
    ensures !FreezesProposalToo(decision, proposal)
  {
    var d, added := Keys(decision.cohort), Keys(proposal.cohort) - Keys(decision.cohort);
    hide Keys;
    var a, b :| a in r && b in r && CellOf(a) != CellOf(b);
    assert {a, b} <= r && |{a, b}| == 2;
    SubsetCount({a, b}, r);
    assert r * d == r && d - r == left && |d| == |r| + |left|;
    assert !Satisfies(MultiCell, left) by {
      if x, y :| x in left && y in left && CellOf(x) != CellOf(y) { SubsetCount({x, y}, left); }
    }
    assert Finishing(decision, r) && Quorum(proposal, added + left) && !Meet(r, added + left);
  }

  lemma MissedQuorum(d: set<string>, added: set<string>, r: set<string>, q: set<string>)
    requires r <= d && Spans(r) && !Spans(d - r) && Spans(q) && q <= d + added && q !! r
    ensures Spans(d) && (Spans(added) || exists x :: Spare(d, x) && Spans(added + {x}))
  {
    var x, y :| x in q && y in q && CellOf(x) != CellOf(y);
    var z := if x in d then x else y;
    if x in d || y in d {
      var a, b :| a in r && b in r && CellOf(a) != CellOf(b);
      assert {a, b, z} <= d && |{a, b, z}| == 3;
      SubsetCount({a, b, z}, d);
      assert Spare(d, z) && Spans(added + {z});
    }
  }

  // ---------------------------------------------------------------- cohort safety

  function WithoutComponent(cohort: seq<ID>, member: ID): seq<ID> {
    Filter(cohort, (id: ID) => ComponentKey(id) != ComponentKey(member))
  }

  /** Whether the cohort can still be recruited once `member`, if any, has failed. */
  predicate SurvivesMemberLoss(policy: Policy, cohort: seq<ID>, member: Option<ID>) {
    CheckSufficientRecruitment(policy, cohort,
                               if member.Some? then WithoutComponent(cohort, member.value) else cohort)
  }

  predicate CohortSurvivesAnyMemberLoss(policy: Policy, cohort: seq<ID>) {
    var members := NormalizeIDs(cohort);
    members != [] && forall m :: m in members ==> SurvivesMemberLoss(policy, members, Some(m))
  }

  method ScanMemberLoss(policy: Policy, cohort: seq<ID>) returns (safe: bool)
    ensures safe == CohortSurvivesAnyMemberLoss(policy, cohort)
  {
    hide SurvivesMemberLoss, NormalizeIDs;
    var members := Normalize(cohort);
    if |members| == 0 {
      return false;
    }
    for i := 0 to |members|
      invariant forall j :: 0 <= j < i ==> SurvivesMemberLoss(policy, members, Some(members[j]))
    {
      if !SurvivesMemberLoss(policy, members, Some(members[i])) {
        return false;
      }
    }
    return true;
  }

  /** The nodes that go when `member` fails: all that share its component key. */
  function LostWith(ids: seq<ID>, member: ID): set<string> {
    set id | id in ids && ComponentKey(id) == ComponentKey(member) :: ClusterKey(id)
  }

  lemma NormalizedIsOneEach(ids: seq<ID>)
    ensures forall a, b :: a in NormalizeIDs(ids) && b in NormalizeIDs(ids) && ClusterKey(a) == ClusterKey(b) ==> a == b
  {
    hide ClusterKey;
    assert forall id :: id in NormalizeIDs(ids) ==> ClusterKey(id) in ByKey(ids) && ByKey(ids)[ClusterKey(id)] == id;
  }

  lemma RemainingKeys(members: seq<ID>, member: ID)
    requires forall a, b :: a in members && b in members && ClusterKey(a) == ClusterKey(b) ==> a == b
    ensures Keys(WithoutComponent(members, member)) == Keys(members) - LostWith(members, member)
    ensures LostWith(members, member) <= Keys(members)
  {
    hide ClusterKey, ComponentKey;
  }

  lemma LossOfGroup(policy: Policy, members: seq<ID>, member: ID)
    requires forall a, b :: a in members && b in members && ClusterKey(a) == ClusterKey(b) ==> a == b
    ensures var lost := LostWith(members, member);
            SurvivesMemberLoss(policy, members, Some(member)) <==>
              2 * |lost| < |Keys(members)| && !Satisfies(policy, lost)
  {
    hide CheckSufficientRecruitment, WithoutComponent, LostWith, Keys, Satisfies, ClusterKey;
    var rest, lost := WithoutComponent(members, member), LostWith(members, member);
    RemainingKeys(members, member);
    SufficientRecruitmentMeaning(policy, members, rest);
    assert Keys(members) - Keys(rest) == lost;
    assert |Keys(rest)| == |Keys(members)| - |lost|;
  }

  /** With nobody lost, every cohort but the empty one can be recruited. */
  lemma NoLossIsSurvived(policy: Policy, cohort: seq<ID>)
    ensures SurvivesMemberLoss(policy, cohort, None) <==> cohort != []
  {
    hide CheckSufficientRecruitment;
    SufficientRecruitmentMeaning(policy, cohort, cohort);
    if cohort != [] { assert ClusterKey(cohort[0]) in Keys(cohort); }
    hide Keys;
    assert Keys(cohort) - Keys(cohort) == {};
  }

  /** No node alone satisfies the policy. */
  ghost predicate NeedsTwo(policy: Policy) { policy.AtLeastN? ==> policy.n >= 2 }

  /** No two nodes of different cluster keys share a component key. */
  ghost predicate ComponentsDistinguish(ids: seq<ID>) {
    forall a, b :: a in ids && b in ids && ComponentKey(a) == ComponentKey(b) ==> ClusterKey(a) == ClusterKey(b)
  }

  /** Failure safety, whatever duplicates the list carries: no loss takes half of the distinct members or a set that
      satisfies the policy. When component keys tell nodes apart that means three members and none durable alone. */
  lemma CohortSafetyClosedForm(policy: Policy, cohort: seq<ID>)
    ensures CohortSurvivesAnyMemberLoss(policy, cohort) <==>
            && cohort != []
            && forall m :: m in NormalizeIDs(cohort) ==>
                 var lost := LostWith(NormalizeIDs(cohort), m); 2 * |lost| < |Keys(cohort)| && !Satisfies(policy, lost)
    ensures ComponentsDistinguish(cohort) ==>
              (CohortSurvivesAnyMemberLoss(policy, cohort) <==> |Keys(cohort)| >= 3 && NeedsTwo(policy))
  {
    hide SurvivesMemberLoss, NormalizeIDs, LostWith, Satisfies, ClusterKey, ComponentKey;
    var members := NormalizeIDs(cohort);
    NormalizedIsOneEach(cohort);
    assert members == [] <==> cohort == [] by { EmptyCohort(cohort); }
    forall m | m in members
      ensures SurvivesMemberLoss(policy, members, Some(m)) <==>
              var lost := LostWith(members, m); 2 * |lost| < |Keys(cohort)| && !Satisfies(policy, lost)
      ensures ComponentsDistinguish(cohort) ==>
                (SurvivesMemberLoss(policy, members, Some(m)) <==> |Keys(cohort)| >= 3 && NeedsTwo(policy))
    {
      LossOfGroup(policy, members, m);
      if ComponentsDistinguish(cohort) { LossOfOne(policy, members, m); }
    }
    if members != [] { assert members[0] in members; }
  }

  lemma EmptyCohort(cohort: seq<ID>)
    ensures NormalizeIDs(cohort) == [] <==> cohort == []
    ensures cohort == [] ==> |Keys(cohort)| == 0
  {
    if cohort != [] { assert ClusterKey(cohort[0]) in Keys(cohort); }
    if NormalizeIDs(cohort) != [] { assert NormalizeIDs(cohort)[0] in NormalizeIDs(cohort); }
  }

  lemma LossOfOne(policy: Policy, members: seq<ID>, member: ID)
    requires forall a, b :: a in members && b in members && ClusterKey(a) == ClusterKey(b) ==> a == b
    requires ComponentsDistinguish(members) && member in members
    ensures var lost := LostWith(members, member);
            2 * |lost| < |Keys(members)| && !Satisfies(policy, lost) <==> |Keys(members)| >= 3 && NeedsTwo(policy)
  {
    hide ClusterKey, ComponentKey, Keys;
    assert LostWith(members, member) == {ClusterKey(member)};
  }
}
