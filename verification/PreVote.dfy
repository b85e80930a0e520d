/** The pre-vote feasibility check predicts exactly whether recruiting will yield a proposal. */
module PreVote {
  import opened Types
  import opened Collections
  import opened Compare
  import opened Policy
  import opened Durability
  import opened Revocation
  import opened Proposals

  type Change = ConsensusStatus -> ConsensusStatus

  /** A change to statuses that leaves identity and WAL position alone. */
  ghost predicate KeepsPosition(f: Change) {
    forall cs :: f(cs).id == cs.id && f(cs).current == cs.current
  }

  function Promised(rev: TermRevocation): Change {
    (cs: ConsensusStatus) => cs.(revocation := Some(rev))
  }

  /** Every node that could accept the revocation does so, its WAL unchanged. */
  function AfterRecruiting(rev: TermRevocation): Change {
    (cs: ConsensusStatus) => if ValidateRevocation(cs, Some(rev)).Ok? then cs.(revocation := Some(rev)) else cs
  }

  // ---------------------------------------------------------------- every stage ignores the change

  lemma {:induction false} BestByKeyChanged(xs: seq<ConsensusStatus>, f: Change)
    requires KeepsPosition(f)
    ensures BestByKey(Map(xs, f)) == map k | k in BestByKey(xs) :: f(BestByKey(xs)[k])
  {
    if xs != [] {
      hide ComparePoolerPosition, KeyOf;
      assert Map(xs, f)[..|xs| - 1] == Map(xs[..|xs| - 1], f);
      BestByKeyChanged(xs[..|xs| - 1], f);
    }
  }

  lemma DeduplicateChanged(xs: seq<ConsensusStatus>, f: Change)
    requires KeepsPosition(f)
    ensures Deduplicate(Map(xs, f)) == Map(Deduplicate(xs), f)
  {
    BestByKeyChanged(xs, f);
    hide BestByKey, SortedValues;
    SortedValuesMap(BestByKey(xs), f);
  }

  lemma RecruitsChanged(xs: seq<ConsensusStatus>, f: Change)
    requires KeepsPosition(f)
    ensures Recruits(Map(xs, f)) == Map(Recruits(xs), f)
  {
    DeduplicateChanged(xs, f);
    hide Deduplicate, IsUnset, Numbers;
    FilterMap(Deduplicate(xs), f, HasValidPosition);
  }

  lemma {:induction false} DiscoverChanged(xs: seq<ConsensusStatus>, f: Change)
    requires KeepsPosition(f)
    ensures Discover(Map(xs, f)) == Discovery(Discover(xs).position, Map(Discover(xs).recording, f))
  {
    if xs != [] {
      hide CompareRulePosition;
      assert Map(xs, f)[..|xs| - 1] == Map(xs[..|xs| - 1], f);
      DiscoverChanged(xs[..|xs| - 1], f);
    }
  }

  lemma DiscoveryChanged(xs: seq<ConsensusStatus>, f: Change)
    requires KeepsPosition(f)
    ensures var a, b := DiscoverOutgoingRulePosition(xs), DiscoverOutgoingRulePosition(Map(xs, f));
            && (a.Ok? <==> b.Ok?)
            && (a.Ok? ==> a.value.position == b.value.position)
  {
    DiscoverChanged(xs, f);
    hide Discover;
    var d := Discover(xs);
    if d.recording != [] {
      assert Map(d.recording, f)[1..] == Map(d.recording[1..], f);
      var rest := d.recording[1..];
      if cs :| cs in rest && PositionOf(cs.current) != d.position {
        var i :| 0 <= i < |rest| && rest[i] == cs;
        assert Map(rest, f)[i] in Map(rest, f);
      }
    }
  }

  lemma {:induction false} IDsOfChanged(xs: seq<ConsensusStatus>, f: Change)
    requires KeepsPosition(f)
    ensures IDsOf(Map(xs, f)) == IDsOf(xs)
  {
    if xs != [] {
      assert Map(xs, f)[..|xs| - 1] == Map(xs[..|xs| - 1], f);
      IDsOfChanged(xs[..|xs| - 1], f);
    }
  }

  lemma RecruitedInChanged(cohort: seq<ID>, xs: seq<ConsensusStatus>, f: Change)
    requires KeepsPosition(f)
    ensures RecruitedIn(cohort, Map(xs, f)) == RecruitedIn(cohort, xs)
  {
    hide MemberOf, IDsOf;
    FilterMap(xs, f, InCohort(cohort));
    IDsOfChanged(Filter(xs, InCohort(cohort)), f);
  }

  lemma {:induction false} NarrowChanged(xs: seq<ConsensusStatus>, f: Change, minLsn: nat)
    requires KeepsPosition(f)
    ensures Narrow(Map(xs, f), minLsn) == Narrowed(Narrow(xs, minLsn).bestLsn, Map(Narrow(xs, minLsn).leaders, f))
  {
    if xs != [] {
      assert Map(xs, f)[..|xs| - 1] == Map(xs[..|xs| - 1], f);
      NarrowChanged(xs[..|xs| - 1], f, minLsn);
    }
  }

  function ChangedRule(o: OutgoingRule, f: Change): OutgoingRule { o.(recruited := Map(o.recruited, f)) }

  function ChangedResult(r: RecruitmentResult, f: Change): RecruitmentResult {
    r.(eligible := Map(r.eligible, f), outgoing := ChangedRule(r.outgoing, f))
  }

  lemma StagesChanged(o: OutgoingRule, f: Change)
    requires KeepsPosition(f)
    ensures Revoke(ChangedRule(o, f)).Ok? <==> Revoke(o).Ok?
    ensures CheckRecruitsCanFinalizeProposal(ChangedRule(o, f)).Ok? <==> CheckRecruitsCanFinalizeProposal(o).Ok?
  {
    hide RecruitedIn, CheckSufficientRecruitment, SatisfiedBy, BuildPolicyTransition, ParsePolicy;
    forall cohort ensures RecruitedIn(cohort, Map(o.recruited, f)) == RecruitedIn(cohort, o.recruited) {
      RecruitedInChanged(cohort, o.recruited, f);
    }
  }

  lemma LeadersChanged(o: OutgoingRule, f: Change)
    requires KeepsPosition(f)
    ensures EligibleLeaders(ChangedRule(o, f)).Ok? <==> EligibleLeaders(o).Ok?
    ensures EligibleLeaders(o).Ok? ==> EligibleLeaders(ChangedRule(o, f)).value == Map(EligibleLeaders(o).value, f)
  {
    hide Narrow, CompareRulePosition;
    FilterMap(o.recruited, f, AtPosition(o.position));
    NarrowChanged(Filter(o.recruited, AtPosition(o.position)), f, if o.basis.ByCert? then o.basis.frozenLsn else 0);
  }

  lemma PrepareFromChanged(rev: TermRevocation, recruits: seq<ConsensusStatus>, basis: Basis, f: Change)
    requires KeepsPosition(f)
    ensures var a, b := PrepareFrom(Some(rev), recruits, basis), PrepareFrom(Some(rev), Map(recruits, f), basis);
            && (a.Ok? <==> b.Ok?)
            && (a.Ok? ==> b.value == ChangedResult(a.value, f))
  {
    hide DiscoverOutgoingRulePosition, Revoke, CheckRecruitsCanFinalizeProposal, EligibleLeaders,
      PossiblyUndecidedRule, CompareRuleNumbers, KeepsPosition, IsRuleDecided;
    DiscoveryChanged(recruits, f);
    if DiscoverOutgoingRulePosition(recruits).Ok? {
      var o := OutgoingRule(recruits, DiscoverOutgoingRulePosition(recruits).value.position, basis);
      StagesChanged(o, f);
      LeadersChanged(o, f);
    }
  }

  lemma PrepareChanged(rev: TermRevocation, xs: seq<ConsensusStatus>, basis: Basis, f: Change)
    requires KeepsPosition(f)
    ensures var a, b := Prepare(Some(rev), xs, basis), Prepare(Some(rev), Map(xs, f), basis);
            && (a.Ok? <==> b.Ok?)
            && (a.Ok? ==> b.value == ChangedResult(a.value, f))
  {
    hide PrepareFrom, Recruits, KeepsPosition, ChangedResult;
    RecruitsChanged(xs, f);
    PrepareFromChanged(rev, Recruits(xs), basis, f);
  }

  lemma ValidateChanged(p: CoordinatorProposal, r: RecruitmentResult, f: Change, recruited: seq<ID>)
    requires KeepsPosition(f)
    ensures ValidateProposal(p, ChangedResult(r, f), recruited).Ok? <==> ValidateProposal(p, r, recruited).Ok?
  {
    hide SameCohort, SatisfiedBy, CheckSufficientRecruitment, ParsePolicy, CompareRuleNumbers, KeyOf;
    var named := exists cs :: cs in r.eligible && KeyOf(cs.id) == KeyOf(p.leader);
    assert named <==> exists cs :: cs in Map(r.eligible, f) && KeyOf(cs.id) == KeyOf(p.leader) by {
      if cs :| cs in r.eligible && KeyOf(cs.id) == KeyOf(p.leader) {
        var i :| 0 <= i < |r.eligible| && r.eligible[i] == cs;
        assert Map(r.eligible, f)[i] in Map(r.eligible, f);
      }
    }
  }

  // ---------------------------------------------------------------- the theorem

  /** A change to nothing but the stored promises. */
  ghost predicate OnlyPromises(f: Change) { forall cs :: f(cs) == cs.(revocation := f(cs).revocation) }

  /** The builder does not look at the promises stored in the statuses it is given. */
  ghost predicate IgnoresPromises(builder: Builder) {
    forall r, f :: OnlyPromises(f) ==> builder(ChangedResult(r, f)) == builder(r)
  }

  lemma BuilderAgrees(builder: Builder, r: RecruitmentResult, f: Change)
    requires OnlyPromises(f) && IgnoresPromises(builder)
    ensures builder(ChangedResult(r, f)) == builder(r)
  {
  }

  lemma BuiltChanged(p: CoordinatorProposal, r: RecruitmentResult, f: Change)
    requires KeepsPosition(f)
    ensures var cohort, r' := CohortOf(p.transition.proposal), ChangedResult(r, f);
            ValidateProposal(p, r', RecruitedIn(cohort, r'.outgoing.recruited)).Ok?
            <==> ValidateProposal(p, r, RecruitedIn(cohort, r.outgoing.recruited)).Ok?
  {
    hide ValidateProposal, RecruitedIn;
    RecruitedInChanged(CohortOf(p.transition.proposal), r.outgoing.recruited, f);
    ValidateChanged(p, r, f, RecruitedIn(CohortOf(p.transition.proposal), r.outgoing.recruited));
  }

  lemma CoreChanged(rev: TermRevocation, xs: seq<ConsensusStatus>, builder: Builder, f: Change)
    requires OnlyPromises(f) && KeepsPosition(f) && IgnoresPromises(builder)
    ensures BuildProposalCore(Some(rev), Map(xs, f), ByRecruitment, builder).Ok?
            <==> BuildProposalCore(Some(rev), xs, ByRecruitment, builder).Ok?
  {
    hide Prepare, ValidateProposal, RecruitedIn, KeepsPosition, OnlyPromises, IgnoresPromises, ChangedResult;
    PrepareChanged(rev, xs, ByRecruitment, f);
    if Prepare(Some(rev), xs, ByRecruitment).Ok? {
      var r := Prepare(Some(rev), xs, ByRecruitment).value;
      BuilderAgrees(builder, r, f);
      if builder(r).Built? { BuiltChanged(builder(r).proposal, r, f); }
    }
  }

  lemma {:induction false} RecruitedAreCandidates(rev: TermRevocation, statuses: seq<ConsensusStatus>)
    requires forall cs :: cs in statuses ==> cs.revocation != Some(rev)
    ensures Filter(Map(statuses, AfterRecruiting(rev)), CarriesRevocation(Some(rev)))
            == Map(Filter(statuses, CouldAccept(Some(rev))), Promised(rev))
  {
    if statuses != [] {
      hide ValidateRevocation;
      var init, last := statuses[..|statuses| - 1], statuses[|statuses| - 1];
      assert statuses == init + [last];
      assert Map(statuses, AfterRecruiting(rev))[..|statuses| - 1] == Map(init, AfterRecruiting(rev));
      RecruitedAreCandidates(rev, init);
    }
  }

  /** Pre-vote is exact: for a revocation nobody holds yet, the check passes if and only if a proposal can be
      built once every node that could accept it has. */
  lemma PreVoteIsExact(rev: TermRevocation, statuses: seq<ConsensusStatus>, builder: Builder)
    requires forall cs :: cs in statuses ==> cs.revocation != Some(rev)
    requires IgnoresPromises(builder)
    ensures CheckProposalPossible(Some(rev), statuses, builder).Ok?
            <==> BuildSafeProposal(Some(rev), Map(statuses, AfterRecruiting(rev)), builder).Ok?
  {
    hide BuildProposalCore, AfterRecruiting, Promised;
    RecruitedAreCandidates(rev, statuses);
    assert KeepsPosition(Promised(rev)) && OnlyPromises(Promised(rev)) by { PromisedKeepsPosition(rev); }
    CoreChanged(rev, Filter(statuses, CouldAccept(Some(rev))), builder, Promised(rev));
  }

  lemma PromisedKeepsPosition(rev: TermRevocation)
    ensures KeepsPosition(Promised(rev)) && OnlyPromises(Promised(rev))
  {
  }
}
