/** What one recruitment round guarantees, and what two competing rounds cannot both do. */
module Failover {
  import opened Types
  import opened Collections
  import opened Compare
  import opened Policy
  import opened Durability
  import opened Revocation
  import opened Proposals

  /** The statuses that accepted a revocation. */
  function Accepted(rev: TermRevocation, statuses: seq<ConsensusStatus>): seq<ConsensusStatus> {
    Filter(statuses, CarriesRevocation(Some(rev)))
  }

  /** The recruits of a round and the outgoing position they record. */
  function RoundRecruits(rev: TermRevocation, statuses: seq<ConsensusStatus>): seq<ConsensusStatus> {
    Recruits(Accepted(rev, statuses))
  }

  function RoundPosition(rev: TermRevocation, statuses: seq<ConsensusStatus>): Option<RulePosition> {
    Discover(RoundRecruits(rev, statuses)).position
  }

  lemma RecruitsAccepted(rev: TermRevocation, statuses: seq<ConsensusStatus>)
    ensures forall cs :: cs in RoundRecruits(rev, statuses) ==>
              cs in statuses && cs.revocation == Some(rev) && cs.id.Some? && HasValidPosition(cs)
  {
    DeduplicateKeepsTheBest(Accepted(rev, statuses));
  }

  /** The most advanced of a list of recruits, recording a given position. */
  ghost predicate LeadsFrom(leader: ConsensusStatus, recruits: seq<ConsensusStatus>, pos: Option<RulePosition>) {
    && leader in recruits && PositionOf(leader.current) == pos
    && forall cs :: cs in recruits ==> ComparePoolerPosition(leader.current, cs.current) >= 0
  }

  /** A certified round needs a leader that holds the frozen LSN. */
  ghost predicate HoldsFrozen(leader: ConsensusStatus, basis: Basis) {
    LsnOf(leader.current).Some? && (basis.ByCert? ==> LsnOf(leader.current).value >= basis.frozenLsn)
  }

  /** The freezing half of a successful round. */
  ghost predicate RoundFroze(recruits: seq<ConsensusStatus>, pos: Option<RulePosition>) {
    && PolicyOf(DecisionOf(pos)).Ok?
    && Frozen(InForce(DecisionOf(pos)), StatusKeys(recruits))
    && (!IsRuleDecided(pos) ==>
          && PolicyOf(ProposalOf(pos)).Ok?
          && CanFinish(InForce(DecisionOf(pos)), InForce(ProposalOf(pos)), StatusKeys(recruits)))
  }

  /** The revoke and finalize stages pass exactly when the decision is frozen and what is stuck on it can be
      finished. */
  lemma RevokeFreezes(o: OutgoingRule)
    requires o.basis.ByRecruitment?
    ensures Revoke(o).Ok? && CheckRecruitsCanFinalizeProposal(o).Ok? <==> RoundFroze(o.recruited, o.position)
  {
    hide CheckSufficientRecruitment, SatisfiedBy, BuildPolicyTransition, Satisfies, Sufficient, RecruitedIn,
      StatusKeys, Keys;
    var decision, proposal := DecisionOf(o.position), ProposalOf(o.position);
    if PolicyOf(decision).Ok? {
      SufficientRecruitmentMeaning(PolicyOf(decision).value, CohortOf(decision),
                                   RecruitedIn(CohortOf(decision), o.recruited));
      RecruitedInKeys(CohortOf(decision), o.recruited);
      if !IsRuleDecided(o.position) && PolicyOf(proposal).Ok?
         && BuildPolicyTransition(InForce(decision), InForce(proposal)).Ok?
      {
        var both := BuildPolicyTransition(InForce(decision), InForce(proposal)).value.both;
        SatisfiedByMeaning(both.policy, RecruitedIn(both.cohort, o.recruited));
        RecruitedInKeys(both.cohort, o.recruited);
      }
    }
  }

  lemma LeaderIsMostAdvanced(o: OutgoingRule, leader: ConsensusStatus)
    requires forall cs :: cs in o.recruited ==> CompareRulePosition(PositionOf(cs.current), o.position) <= 0
    requires Agree(o.recruited, o.position) && forall cs :: cs in o.recruited ==> LsnOf(cs.current).Some?
    requires EligibleLeaders(o).Ok? && leader in EligibleLeaders(o).value
    ensures LeadsFrom(leader, o.recruited, o.position) && HoldsFrozen(leader, o.basis)
  {
    var recording := Filter(o.recruited, AtPosition(o.position));
    var floor := if o.basis.ByCert? then o.basis.frozenLsn else 0;
    NarrowIsArgmax(recording, floor);
    hide Narrow, CompareRulePosition, ComparePoolerPosition;
    assert leader in recording;
    forall cs | cs in o.recruited ensures ComparePoolerPosition(leader.current, cs.current) >= 0 {
      if CompareRulePosition(PositionOf(cs.current), o.position) == 0 {
        assert cs in recording;
      }
      HigherLsnIsAhead(leader.current, cs.current, o.position);
    }
  }

  lemma HigherLsnIsAhead(leader: Option<PoolerPosition>, seen: Option<PoolerPosition>, pos: Option<RulePosition>)
    requires CompareRulePosition(PositionOf(leader), pos) == 0 >= CompareRulePosition(PositionOf(seen), pos)
    requires LsnOf(leader).Some? && LsnOf(seen).Some?
    requires CompareRulePosition(PositionOf(seen), pos) == 0 ==> LsnOf(leader).value >= LsnOf(seen).value
    ensures ComparePoolerPosition(leader, seen) >= 0
  {
  }

  /** And every most advanced recruit that holds a certified LSN is eligible. */
  lemma LeaderIsEligible(o: OutgoingRule, leader: ConsensusStatus)
    requires LeadsFrom(leader, o.recruited, o.position) && HoldsFrozen(leader, o.basis)
    ensures EligibleLeaders(o).Ok? && leader in EligibleLeaders(o).value
  {
    var recording := Filter(o.recruited, AtPosition(o.position));
    var floor := if o.basis.ByCert? then o.basis.frozenLsn else 0;
    NarrowIsArgmax(recording, floor);
    hide Narrow, CompareRulePosition;
    CompareFlip(o.position, o.position);
    assert leader in recording;
    var n := Narrow(recording, floor);
    assert n.leaders != [];
    var best := n.leaders[0];
    SamePositionHigherLsn(leader.current, best.current, o.position);
  }

  lemma SamePositionHigherLsn(a: Option<PoolerPosition>, b: Option<PoolerPosition>, pos: Option<RulePosition>)
    requires ComparePoolerPosition(a, b) >= 0 && PositionOf(a) == pos && CompareRulePosition(PositionOf(b), pos) == 0
    requires LsnOf(a).Some? && LsnOf(b).Some?
    ensures LsnOf(a).value >= LsnOf(b).value
  {
  }

  // ---------------------------------------------------------------- which proposals are built

  /** What a proposal must say to be accepted from a round that found `pos`. */
  ghost predicate Proposable(p: CoordinatorProposal, rev: TermRevocation, pos: Option<RulePosition>,
                             recruits: set<string>, basis: Basis) {
    && p.revocation == Some(rev) && (p.skipOutgoingQuorum ==> basis.ByCert?) && p.leader.Some?
    && p.transition.proposal.Some?
    && NumberOf(p.transition.decision) == OutgoingOf(Some(rev))
    && var rule := p.transition.proposal;
       && rule.value.coordinator.Some? && rule.value.creationTime.Some?
       && rule.value.number.term == rev.revokedBelowTerm
       && PolicyOf(rule).Ok? && Satisfies(PolicyOf(rule).value, recruits * Keys(CohortOf(rule)))
       && (basis.ByCert? ==> Frozen(InForce(rule), recruits))
       && (basis.ByRecruitment? && !IsRuleDecided(pos) ==>
             && PossiblyUndecidedRule(pos).Some? && rule.value.policy == PossiblyUndecidedRule(pos).value.policy
             && SameCohort(rule.value.cohort, PossiblyUndecidedRule(pos).value.cohort))
  }

  /** Validation passes exactly the proposals a round may make that name an eligible leader. */
  lemma ValidationIsExact(p: CoordinatorProposal, result: RecruitmentResult, rev: TermRevocation)
    requires result.revocation == Some(rev)
    requires result.outgoingRule == PossiblyUndecidedRule(result.outgoing.position)
    requires result.outgoingRuleDecided == IsRuleDecided(result.outgoing.position)
    ensures var o := result.outgoing;
            ValidateProposal(p, result, RecruitedIn(CohortOf(p.transition.proposal), o.recruited)).Ok? <==>
            && Proposable(p, rev, o.position, StatusKeys(o.recruited), o.basis)
            && exists leader :: leader in result.eligible && KeyOf(leader.id) == KeyOf(p.leader)
  {
    hide SameCohort, SatisfiedBy, CheckSufficientRecruitment, ParsePolicy, KeyOf, Satisfies, StatusKeys,
      RecruitedIn, Keys, IsRuleDecided, PossiblyUndecidedRule, Sufficient;
    var rule, recruits := p.transition.proposal, result.outgoing.recruited;
    RecruitedInKeys(CohortOf(rule), recruits);
    if PolicyOf(rule).Ok? {
      SatisfiedByMeaning(PolicyOf(rule).value, RecruitedIn(CohortOf(rule), recruits));
      SufficientRecruitmentMeaning(PolicyOf(rule).value, CohortOf(rule), RecruitedIn(CohortOf(rule), recruits));
    }
  }

  /** Recruits from which `p` can be built, with `leader` the node it names: nobody is ahead of the leader, those level
      with it agree with it, the revocation leaves the rule it records, that rule is frozen and what is stuck on it can
      be finished (or a cert says so, and the leader holds its LSN), and `p` says what it must. */
  ghost predicate Leads(leader: ConsensusStatus, rev: TermRevocation, recruits: seq<ConsensusStatus>, basis: Basis,
                        p: CoordinatorProposal) {
    var pos := PositionOf(leader.current);
    && LeadsFrom(leader, recruits, pos) && Agree(recruits, pos) && KeyOf(leader.id) == KeyOf(p.leader)
    && rev.outgoingRule == Some(NumberOf(PossiblyUndecidedRule(pos)))
    && (basis.ByRecruitment? ==> RoundFroze(recruits, pos)) && HoldsFrozen(leader, basis)
    && Proposable(p, rev, pos, StatusKeys(recruits), basis)
  }

  /** Every proposal built, by whatever builder, is led in this sense, from the position discovered. */
  lemma BuiltIsLed(rev: TermRevocation, statuses: seq<ConsensusStatus>, basis: Basis, builder: Builder)
    returns (leader: ConsensusStatus)
    requires BuildProposalCore(Some(rev), statuses, basis, builder).Ok?
    ensures Leads(leader, rev, Recruits(statuses), basis, BuildProposalCore(Some(rev), statuses, basis, builder).value)
    ensures PositionOf(leader.current) == Discover(Recruits(statuses)).position
  {
    hide Discover, CompareRulePosition, ComparePoolerPosition, Revoke, EligibleLeaders, Deduplicate, KeyOf,
      CheckRecruitsCanFinalizeProposal, RecruitedIn, ValidateProposal, BuildProposalCore, RoundFroze, Prepare,
      Proposable, StatusKeys;
    var result := BuiltFromPrepared(Some(rev), statuses, basis, builder);
    var p := BuildProposalCore(Some(rev), statuses, basis, builder).value;
    ValidationIsExact(p, result, rev);
    leader :| leader in result.eligible && KeyOf(leader.id) == KeyOf(p.leader);
    assert forall cs :: cs in Recruits(statuses) ==> HasValidPosition(cs);
    if basis.ByRecruitment? { RevokeFreezes(result.outgoing); }
    LeaderIsMostAdvanced(result.outgoing, leader);
  }

  /** And every proposal that is led is built. */
  lemma LedIsBuilt(rev: TermRevocation, statuses: seq<ConsensusStatus>, basis: Basis, leader: ConsensusStatus,
                   p: CoordinatorProposal, builder: Builder)
    requires Leads(leader, rev, Recruits(statuses), basis, p) && forall r :: builder(r) == Built(p)
    ensures BuildProposalCore(Some(rev), statuses, basis, builder) == Ok(p)
  {
    hide CompareRulePosition, ComparePoolerPosition, StatusKeys, KeyOf, Discover, DiscoverOutgoingRulePosition,
      Revoke, CheckRecruitsCanFinalizeProposal, EligibleLeaders, ValidateProposal, RecruitedIn, Proposable,
      PossiblyUndecidedRule, IsRuleDecided, Deduplicate, Frozen, CanFinish, PolicyOf, InForce;
    var recruits, pos := Recruits(statuses), PositionOf(leader.current);
    assert statuses != [] by { DeduplicateKeepsTheBest(statuses); }
    TopOf(recruits, leader);
    var o := OutgoingRule(recruits, pos, basis);
    if basis.ByRecruitment? { RevokeFreezes(o); }
    StageResults(o);
    LeaderIsEligible(o, leader);
    var result := RecruitmentResult(Some(rev), PossiblyUndecidedRule(pos), IsRuleDecided(pos),
                                    EligibleLeaders(o).value, o);
    ValidationIsExact(p, result, rev);
    SameNumber(rev.outgoingRule.value);
    assert Prepare(Some(rev), statuses, basis) == Ok(result);
  }

  lemma StageResults(o: OutgoingRule)
    ensures Revoke(o).Ok? ==> Revoke(o).value == o
    ensures o.basis.ByCert? ==> Revoke(o).Ok? && CheckRecruitsCanFinalizeProposal(o).Ok?
  {
  }

  lemma SameNumber(n: RuleNumber)
    ensures CompareRuleNumbers(n, n) == 0
  {
  }

  lemma TopOf(recruits: seq<ConsensusStatus>, leader: ConsensusStatus)
    requires leader in recruits && Agree(recruits, PositionOf(leader.current))
    requires forall cs :: cs in recruits ==> HasValidPosition(cs)
    requires forall cs :: cs in recruits ==> ComparePoolerPosition(leader.current, cs.current) >= 0
    ensures Discover(recruits).position == PositionOf(leader.current)
    ensures DiscoverOutgoingRulePosition(recruits) == Ok(Discover(recruits))
  {
    hide HasValidPosition, CompareRulePosition, ComparePoolerPosition;
    DiscoverIsMaximum(recruits);
    var top :| top in recruits && PositionOf(top.current) == Discover(recruits).position;
    BothAhead(leader.current, top.current);
    DiscoveryIsConsistent(recruits);
    hide Discover;
  }

  lemma BothAhead(a: Option<PoolerPosition>, b: Option<PoolerPosition>)
    requires ComparePoolerPosition(a, b) >= 0 && CompareRulePosition(PositionOf(a), PositionOf(b)) <= 0
    ensures CompareRulePosition(PositionOf(b), PositionOf(a)) == 0
  {
  }

  /** Which proposals a recruited round builds, from any statuses. */
  lemma SafeProposalIsExact(rev: TermRevocation, statuses: seq<ConsensusStatus>, p: CoordinatorProposal,
                            builder: Builder)
    requires forall r :: builder(r) == Built(p)
    ensures BuildSafeProposal(Some(rev), statuses, builder) == Ok(p) <==>
            exists leader :: Leads(leader, rev, RoundRecruits(rev, statuses), ByRecruitment, p)
  {
    hide BuildProposalCore, Recruits, Leads;
    var accepted := Accepted(rev, statuses);
    if BuildSafeProposal(Some(rev), statuses, builder) == Ok(p) {
      var leader := BuiltIsLed(rev, accepted, ByRecruitment, builder);
      assert Leads(leader, rev, RoundRecruits(rev, statuses), ByRecruitment, p);
    }
    if leader :| Leads(leader, rev, RoundRecruits(rev, statuses), ByRecruitment, p) {
      LedIsBuilt(rev, accepted, ByRecruitment, leader, p, builder);
      assert accepted != [] by { NothingBuilt(rev, accepted, ByRecruitment, builder); }
    }
  }

  lemma NothingBuilt(rev: TermRevocation, statuses: seq<ConsensusStatus>, basis: Basis, builder: Builder)
    requires BuildProposalCore(Some(rev), statuses, basis, builder).Ok?
    ensures statuses != []
  {
  }

  lemma LedHasOutgoing(leader: ConsensusStatus, rev: TermRevocation, recruits: seq<ConsensusStatus>, basis: Basis,
                       p: CoordinatorProposal)
    requires Leads(leader, rev, recruits, basis, p)
    ensures rev.outgoingRule.Some?
  {
  }

  /** Which proposals a certified round builds, from any statuses. */
  lemma CertifiedProposalIsExact(cert: CertifiedRevocation, statuses: seq<ConsensusStatus>, p: CoordinatorProposal,
                                 builder: Builder)
    requires forall r :: builder(r) == Built(p)
    ensures BuildCertifiedProposal(cert, statuses, builder) == Ok(p) <==>
            && cert.revocation.Some? && cert.frozenLsn.Some?
            && var rev := cert.revocation.value;
               exists leader :: Leads(leader, rev, RoundRecruits(rev, statuses), ByCert(cert.frozenLsn.value), p)
  {
    hide BuildProposalCore, Recruits, Leads;
    if cert.revocation.Some? && cert.frozenLsn.Some? {
      var rev, basis := cert.revocation.value, ByCert(cert.frozenLsn.value);
      var accepted := Accepted(rev, statuses);
      if BuildCertifiedProposal(cert, statuses, builder) == Ok(p) {
        var leader := BuiltIsLed(rev, accepted, basis, builder);
        assert Leads(leader, rev, RoundRecruits(rev, statuses), basis, p);
      }
      if leader :| Leads(leader, rev, RoundRecruits(rev, statuses), basis, p) {
        LedIsBuilt(rev, accepted, basis, leader, p, builder);
        LedHasOutgoing(leader, rev, RoundRecruits(rev, statuses), basis, p);
        assert accepted != [] by { NothingBuilt(rev, accepted, basis, builder); }
      }
    }
  }

  /** What an error says about the recruits of a round and the position they record, if it is about them at all. */
  ghost predicate Explains(e: Error, rev: TermRevocation, recruits: seq<ConsensusStatus>, pos: Option<RulePosition>) {
    match e
    case NoValidPosition => recruits == []
    case OutgoingRuleRequired => rev.outgoingRule.None?
    case InconsistentDiscovery => recruits != [] && !Agree(recruits, pos)
    case OutgoingMismatch =>
      rev.outgoingRule.Some? && rev.outgoingRule != Some(NumberOf(PossiblyUndecidedRule(pos)))
    case InsufficientRecruitment =>
      PolicyOf(DecisionOf(pos)).Ok? && !Frozen(InForce(DecisionOf(pos)), StatusKeys(recruits))
    case CannotFinalize =>
      && !IsRuleDecided(pos) && PolicyOf(DecisionOf(pos)).Ok? && PolicyOf(ProposalOf(pos)).Ok?
      && !CanFinish(InForce(DecisionOf(pos)), InForce(ProposalOf(pos)), StatusKeys(recruits))
    case EmptyList => false
    case NoneAccepted => false
    case NoEligibleLeader => false
    case _ => true
  }

  lemma RevokeErrors(o: OutgoingRule, rev: TermRevocation)
    requires o.basis.ByRecruitment?
    ensures Revoke(o).Err? ==> Explains(Revoke(o).error, rev, o.recruited, o.position)
  {
    hide CheckSufficientRecruitment, Sufficient, RecruitedIn, StatusKeys, Keys;
    var decision := DecisionOf(o.position);
    if PolicyOf(decision).Ok? {
      SufficientRecruitmentMeaning(PolicyOf(decision).value, CohortOf(decision),
                                   RecruitedIn(CohortOf(decision), o.recruited));
      RecruitedInKeys(CohortOf(decision), o.recruited);
    }
  }

  lemma FinalizeErrors(o: OutgoingRule, rev: TermRevocation)
    ensures CheckRecruitsCanFinalizeProposal(o).Err? ==>
              Explains(CheckRecruitsCanFinalizeProposal(o).error, rev, o.recruited, o.position)
  {
    hide SatisfiedBy, BuildPolicyTransition, Satisfies, RecruitedIn, StatusKeys, Keys;
    var decision, proposal := DecisionOf(o.position), ProposalOf(o.position);
    if PolicyOf(decision).Ok? && !IsRuleDecided(o.position) && PolicyOf(proposal).Ok?
       && BuildPolicyTransition(InForce(decision), InForce(proposal)).Ok?
    {
      var both := BuildPolicyTransition(InForce(decision), InForce(proposal)).value.both;
      SatisfiedByMeaning(both.policy, RecruitedIn(both.cohort, o.recruited));
      RecruitedInKeys(both.cohort, o.recruited);
    }
  }

  lemma DiscoveryErrors(recruits: seq<ConsensusStatus>)
    requires recruits != [] && forall cs :: cs in recruits ==> HasValidPosition(cs)
    ensures var d, top := DiscoverOutgoingRulePosition(recruits), Discover(recruits).position;
            && (d.Ok? ==> d.value.position == top && Agree(recruits, top))
            && (d.Err? ==> d.error == InconsistentDiscovery && !Agree(recruits, top))
  {
    RecordingIsExact(recruits);
    DiscoveryIsConsistent(recruits);
    hide Discover, HasValidPosition, CompareRulePosition;
  }

  /** The recruits at the discovered position include one to lead. */
  lemma SomeoneIsEligible(recruits: seq<ConsensusStatus>)
    requires recruits != [] && forall cs :: cs in recruits ==> HasValidPosition(cs)
    ensures EligibleLeaders(OutgoingRule(recruits, Discover(recruits).position, ByRecruitment)).Ok?
  {
    DiscoverIsMaximum(recruits);
    var pos := Discover(recruits).position;
    var recording := Filter(recruits, AtPosition(pos));
    var top :| top in recruits && PositionOf(top.current) == pos;
    CompareFlip(pos, pos);
    assert top in recording;
    NarrowIsArgmax(recording, 0);
    hide Discover, Narrow, CompareRulePosition;
  }

  lemma PrepareErrors(rev: TermRevocation, statuses: seq<ConsensusStatus>)
    requires statuses != [] && Prepare(Some(rev), statuses, ByRecruitment).Err?
    ensures var recruits := Recruits(statuses);
            Explains(Prepare(Some(rev), statuses, ByRecruitment).error, rev, recruits, Discover(recruits).position)
  {
    hide Revoke, CheckRecruitsCanFinalizeProposal, EligibleLeaders, Discover, DiscoverOutgoingRulePosition, Deduplicate,
      HasValidPosition, Frozen, CanFinish, PolicyOf, InForce, StatusKeys, CompareRulePosition, PossiblyUndecidedRule,
      IsRuleDecided, Agree;
    var recruits := Recruits(statuses);
    if recruits != [] {
      var o := OutgoingRule(recruits, Discover(recruits).position, ByRecruitment);
      DiscoveryErrors(recruits);
      RevokeErrors(o, rev);
      StageResults(o);
      FinalizeErrors(o, rev);
      SomeoneIsEligible(recruits);
    }
  }

  lemma ValidationErrors(p: CoordinatorProposal, result: RecruitmentResult, recruited: seq<ID>, rev: TermRevocation,
                         recruits: seq<ConsensusStatus>, pos: Option<RulePosition>)
    requires ValidateProposal(p, result, recruited).Err?
    ensures Explains(ValidateProposal(p, result, recruited).error, rev, recruits, pos)
  {
    hide SameCohort, SatisfiedBy, CheckSufficientRecruitment, ParsePolicy, KeyOf, CompareRuleNumbers;
  }

  /** A round that fails says truly why: nobody joined, or what the error says of the recruits is so. */
  lemma RoundErrorsAreTruthful(rev: TermRevocation, statuses: seq<ConsensusStatus>, builder: Builder)
    requires BuildSafeProposal(Some(rev), statuses, builder).Err?
    ensures var e := BuildSafeProposal(Some(rev), statuses, builder).error;
            if e.NoneAccepted? then forall cs :: cs in statuses ==> cs.revocation != Some(rev)
            else Explains(e, rev, RoundRecruits(rev, statuses), RoundPosition(rev, statuses))
  {
    hide Prepare, ValidateProposal, Recruits, Discover, RecruitedIn, Frozen, CanFinish, Agree, PolicyOf, StatusKeys;
    var accepted := Accepted(rev, statuses);
    if accepted == [] {
      assert forall cs :: cs in statuses && cs.revocation == Some(rev) ==> cs in accepted;
    } else {
      var recruits, pos := RoundRecruits(rev, statuses), RoundPosition(rev, statuses);
      var prepared := Prepare(Some(rev), accepted, ByRecruitment);
      if prepared.Err? {
        PrepareErrors(rev, accepted);
      } else if builder(prepared.value).Built? {
        var p := builder(prepared.value).proposal;
        ValidationErrors(p, prepared.value, RecruitedIn(CohortOf(p.transition.proposal),
                                                        prepared.value.outgoing.recruited), rev, recruits, pos);
      }
    }
  }

  /** A successful round froze the outgoing decision, can finish what is stuck on it, and named a leader no
      recruit is ahead of. */
  lemma SafeRound(rev: TermRevocation, statuses: seq<ConsensusStatus>, builder: Builder)
    returns (leader: ConsensusStatus)
    requires BuildSafeProposal(Some(rev), statuses, builder).Ok?
    ensures var recruits, pos := RoundRecruits(rev, statuses), RoundPosition(rev, statuses);
            && RoundFroze(recruits, pos)
            && LeadsFrom(leader, recruits, pos)
            && KeyOf(leader.id) == KeyOf(BuildSafeProposal(Some(rev), statuses, builder).value.leader)
            && (exists cs :: cs in recruits && PositionOf(cs.current) == pos)
            && rev.outgoingRule == Some(NumberOf(PossiblyUndecidedRule(pos)))
  {
    hide BuildProposalCore, Recruits, Discover, RoundFroze, Proposable, Agree, ComparePoolerPosition, KeyOf;
    leader := BuiltIsLed(rev, Accepted(rev, statuses), ByRecruitment, builder);
  }

  /** Every proposal keeps its word: it belongs to the round, outranks the rule it leaves, can be made durable by
      the recruits, and leaves an undecided rule's policy and cohort alone. */
  lemma ProposalKeepsItsWord(rev: TermRevocation, statuses: seq<ConsensusStatus>, builder: Builder)
    requires BuildSafeProposal(Some(rev), statuses, builder).Ok?
    ensures var p := BuildSafeProposal(Some(rev), statuses, builder).value;
            var pos := RoundPosition(rev, statuses);
            var rule := p.transition.proposal;
            && p.revocation == Some(rev) && !p.skipOutgoingQuorum && p.leader.Some?
            && rule.Some? && PolicyOf(rule).Ok? && rule.value.coordinator.Some? && rule.value.creationTime.Some?
            && NumberOf(p.transition.decision) == NumberOf(PossiblyUndecidedRule(pos))
            && NumberOf(rule).term == rev.revokedBelowTerm
            && (OutgoingOf(Some(rev)).term < rev.revokedBelowTerm ==>
                  CompareRuleNumbers(NumberOf(rule), NumberOf(PossiblyUndecidedRule(pos))) > 0)
            && Satisfies(PolicyOf(rule).value, StatusKeys(RoundRecruits(rev, statuses)) * Keys(CohortOf(rule)))
            && (!IsRuleDecided(pos) ==>
                  rule.value.policy == ProposalOf(pos).value.policy
                  && SameCohort(CohortOf(rule), CohortOf(ProposalOf(pos))))
  {
    hide BuildProposalCore, Recruits, Discover, RoundFroze, Agree, ComparePoolerPosition, KeyOf, StatusKeys, Keys,
      Satisfies, SameCohort, LeadsFrom;
    var leader := BuiltIsLed(rev, Accepted(rev, statuses), ByRecruitment, builder);
  }

  // ---------------------------------------------------------------- when a round succeeds

  /** One status per node, each carrying the revocation and a usable position. */
  ghost predicate OneEach(rev: TermRevocation, statuses: seq<ConsensusStatus>) {
    && (forall cs :: cs in statuses ==> cs.id.Some? && cs.revocation == Some(rev) && HasValidPosition(cs))
    && (forall a, b :: a in statuses && b in statuses && KeyOf(a.id) == KeyOf(b.id) ==> a == b)
  }

  lemma RecruitsAreAll(rev: TermRevocation, statuses: seq<ConsensusStatus>)
    requires OneEach(rev, statuses)
    ensures forall cs :: cs in RoundRecruits(rev, statuses) <==> cs in statuses
    ensures StatusKeys(RoundRecruits(rev, statuses)) == StatusKeys(statuses)
  {
    hide HasValidPosition, KeyOf, ComparePoolerPosition, Deduplicate;
    var accepted := Accepted(rev, statuses);
    DeduplicateKeepsTheBest(accepted);
    forall cs | cs in statuses ensures cs in RoundRecruits(rev, statuses) {
      assert cs in accepted;
      assert KeyOf(cs.id) in StatusKeys(accepted);
      var d := KeyedStatus(Deduplicate(accepted), KeyOf(cs.id));
      assert d == cs;
    }
  }

  lemma LeadsTheRecruits(rev: TermRevocation, statuses: seq<ConsensusStatus>, basis: Basis, leader: ConsensusStatus,
                         p: CoordinatorProposal)
    requires OneEach(rev, statuses) && Leads(leader, rev, statuses, basis, p)
    ensures Leads(leader, rev, RoundRecruits(rev, statuses), basis, p)
    ensures LeadsFrom(leader, RoundRecruits(rev, statuses), RoundPosition(rev, statuses))
  {
    hide RoundRecruits, CompareRulePosition, ComparePoolerPosition, StatusKeys, KeyOf, Proposable, Frozen, CanFinish,
      PolicyOf, InForce, PossiblyUndecidedRule, IsRuleDecided, HasValidPosition, Discover;
    RecruitsAreAll(rev, statuses);
    TopOf(RoundRecruits(rev, statuses), leader);
  }

  /** The builder that always builds `p`. */
  function Constant(p: CoordinatorProposal): Builder { (r: RecruitmentResult) => Built(p) }

  /** Completeness: when every node answers once, a proposal led by the most advanced of those that froze and can
      finish what it records is built. */
  lemma RoundSucceeds(rev: TermRevocation, statuses: seq<ConsensusStatus>, leader: ConsensusStatus,
                      p: CoordinatorProposal, builder: Builder)
    requires OneEach(rev, statuses) && Leads(leader, rev, statuses, ByRecruitment, p)
    requires forall r :: builder(r) == Built(p)
    ensures BuildSafeProposal(Some(rev), statuses, builder) == Ok(p)
    ensures LeadsFrom(leader, RoundRecruits(rev, statuses), RoundPosition(rev, statuses))
  {
    hide Leads, LeadsFrom, RoundRecruits, RoundPosition, BuildSafeProposal, OneEach;
    LeadsTheRecruits(rev, statuses, ByRecruitment, leader, p);
    SafeProposalIsExact(rev, statuses, p, builder);
  }

  /** And so is a certified one, whether or not it skips the outgoing quorum, once the cohort it proposes is
      sufficiently recruited and can make it durable. */
  lemma CertifiedRoundSucceeds(cert: CertifiedRevocation, statuses: seq<ConsensusStatus>, leader: ConsensusStatus,
                               p: CoordinatorProposal, builder: Builder)
    requires cert.revocation.Some? && cert.frozenLsn.Some? && OneEach(cert.revocation.value, statuses)
    requires var rev, pos := cert.revocation.value, PositionOf(leader.current);
             && LeadsFrom(leader, statuses, pos) && Agree(statuses, pos)
             && LsnOf(leader.current).Some? && LsnOf(leader.current).value >= cert.frozenLsn.value
             && rev.outgoingRule == Some(NumberOf(PossiblyUndecidedRule(pos)))
    requires var rev, rule := cert.revocation.value, p.transition.proposal;
             && p.revocation == Some(rev) && p.leader.Some? && KeyOf(leader.id) == KeyOf(p.leader) && rule.Some?
             && NumberOf(p.transition.decision) == OutgoingOf(Some(rev))
             && rule.value.coordinator.Some? && rule.value.creationTime.Some?
             && rule.value.number.term == rev.revokedBelowTerm
             && PolicyOf(rule).Ok? && Finishing(InForce(rule), StatusKeys(statuses))
    requires forall r :: builder(r) == Built(p)
    ensures BuildCertifiedProposal(cert, statuses, builder) == Ok(p)
  {
    hide LeadsFrom, RoundRecruits, RoundPosition, BuildCertifiedProposal, OneEach, StatusKeys, KeyOf, Keys, Satisfies,
      PossiblyUndecidedRule, Agree, Sufficient;
    var rev, basis := cert.revocation.value, ByCert(cert.frozenLsn.value);
    assert Leads(leader, rev, statuses, basis, p);
    LeadsTheRecruits(rev, statuses, basis, leader, p);
    CertifiedProposalIsExact(cert, statuses, p, builder);
  }

  // ---------------------------------------------------------------- durable writes survive a failover

  /** The policy a leader at a position enforces: the decision's, or `Both` while a proposal is undecided. */
  function ExpectedPolicy(pos: Option<RulePosition>): Result<PolicyWithCohort, Error> {
    var decision, proposal := DecisionOf(pos), ProposalOf(pos);
    if PolicyOf(decision).Err? then Err(InvalidPolicy(PolicyOf(decision).error))
    else if IsRuleDecided(pos) then Ok(InForce(decision))
    else if PolicyOf(proposal).Err? then Err(InvalidPolicy(PolicyOf(proposal).error))
    else match BuildPolicyTransition(InForce(decision), InForce(proposal))
      case Err(_) => Err(CannotFinalize)
      case Ok(t) => Ok(t.both)
  }

  /** Cohort lists at a position repeat no node. */
  ghost predicate DuplicateFreeAt(pos: Option<RulePosition>) {
    && |Keys(CohortOf(DecisionOf(pos)))| == |CohortOf(DecisionOf(pos))|
    && |Keys(CohortOf(ProposalOf(pos)))| == |CohortOf(ProposalOf(pos))|
  }

  /** The policy in force is exact: there is one if both rules parse and the change between them is supported; its
      quorums are those of the decision, and while a proposal is undecided, the sets that are quorums of both. */
  lemma PolicyInForceIsExact(pos: Option<RulePosition>, nodes: set<string>)
    requires DuplicateFreeAt(pos)
    ensures var d, p := DecisionOf(pos), ProposalOf(pos);
            && (ExpectedPolicy(pos).Ok? <==>
                && PolicyOf(d).Ok?
                && (!IsRuleDecided(pos) ==> PolicyOf(p).Ok? && Supported(InForce(d), InForce(p))))
            && (ExpectedPolicy(pos).Ok? ==>
                  (Quorum(ExpectedPolicy(pos).value, nodes) <==>
                   Quorum(InForce(d), nodes) && (!IsRuleDecided(pos) ==> Quorum(InForce(p), nodes))))
  {
    hide BuildPolicyTransition, Supported, PolicyOf, Keys, Quorum, IsRuleDecided;
    var d, p := DecisionOf(pos), ProposalOf(pos);
    if PolicyOf(d).Ok? && PolicyOf(p).Ok? {
      TransitionExists(InForce(d), InForce(p));
      if BuildPolicyTransition(InForce(d), InForce(p)).Ok? { TransitionIsExact(InForce(d), InForce(p), nodes); }
    }
  }

  /** The recruits of a frozen round see every set that could make a write durable at its position. */
  lemma FrozenRoundMeetsWriters(recruits: seq<ConsensusStatus>, pos: Option<RulePosition>, nodes: set<string>)
    requires RoundFroze(recruits, pos) && DuplicateFreeAt(pos)
    requires ExpectedPolicy(pos).Ok? && Quorum(ExpectedPolicy(pos).value, nodes)
    ensures Meet(StatusKeys(recruits), nodes)
  {
    hide Sufficient, Satisfies, BuildPolicyTransition, StatusKeys, Keys;
    var decision := InForce(DecisionOf(pos));
    var frozen := StatusKeys(recruits) * Keys(decision.cohort);
    if IsRuleDecided(pos) {
      RecruitmentMeetsQuorum(decision, frozen, nodes);
    } else {
      RecruitmentMeetsBothQuorum(decision, InForce(ProposalOf(pos)), frozen, nodes);
    }
    var k :| k in frozen && k in nodes;
  }

  lemma KeyedStatus(statuses: seq<ConsensusStatus>, k: string) returns (cs: ConsensusStatus)
    requires k in StatusKeys(statuses)
    ensures cs in statuses && cs.id.Some? && KeyOf(cs.id) == k
  {
    cs :| cs in statuses && cs.id.Some? && KeyOf(cs.id) == k;
  }

  lemma LeaderHolds(leader: Option<PoolerPosition>, seen: Option<PoolerPosition>, pos: Option<RulePosition>, lsn: nat)
    requires CompareRulePosition(PositionOf(leader), pos) == 0 && ComparePoolerPosition(leader, seen) >= 0
    requires ComparePoolerPosition(seen, Some(PoolerPosition(pos, Some(lsn)))) >= 0
    ensures LsnOf(leader).Some? && LsnOf(leader).value >= lsn
  {
    PoolerCompareTransitive(leader, seen, Some(PoolerPosition(pos, Some(lsn))));
  }

  /** No durable write is lost by failover: if a set that makes writes durable at the outgoing position holds
      LSN `lsn` there (or is ahead of it), the leader of every proposal built holds it too. */
  lemma NoDurableWriteLost(
    rev: TermRevocation, statuses: seq<ConsensusStatus>, builder: Builder, nodes: set<string>, lsn: nat)
    returns (leader: ConsensusStatus)
    requires BuildSafeProposal(Some(rev), statuses, builder).Ok?
    requires DuplicateFreeAt(RoundPosition(rev, statuses))
    requires ExpectedPolicy(RoundPosition(rev, statuses)).Ok?
    requires Quorum(ExpectedPolicy(RoundPosition(rev, statuses)).value, nodes)
    requires forall cs :: cs in statuses && cs.revocation == Some(rev) && KeyOf(cs.id) in nodes ==>
               ComparePoolerPosition(cs.current, Some(PoolerPosition(RoundPosition(rev, statuses), Some(lsn)))) >= 0
    ensures leader in statuses && leader.revocation == Some(rev)
    ensures KeyOf(leader.id) == KeyOf(BuildSafeProposal(Some(rev), statuses, builder).value.leader)
    ensures CompareRulePosition(PositionOf(leader.current), RoundPosition(rev, statuses)) == 0
    ensures LsnOf(leader.current).Some? && LsnOf(leader.current).value >= lsn
  {
    var recruits, pos := RoundRecruits(rev, statuses), RoundPosition(rev, statuses);
    leader := SafeRound(rev, statuses, builder);
    RecruitsAccepted(rev, statuses);
    hide RoundRecruits, RoundPosition, BuildSafeProposal, ExpectedPolicy, DuplicateFreeAt, RoundFroze, StatusKeys,
      Quorum, CompareRulePosition, ComparePoolerPosition, HasValidPosition, PossiblyUndecidedRule, KeyOf;
    FrozenRoundMeetsWriters(recruits, pos, nodes);
    var k :| k in StatusKeys(recruits) && k in nodes;
    var seen := KeyedStatus(recruits, k);
    LeaderHolds(leader.current, seen.current, pos, lsn);
  }

  // ---------------------------------------------------------------- competing rounds

  /** Every status is a snapshot of a node's history, taken at any time. */
  ghost predicate SnapshotsOf(statuses: seq<ConsensusStatus>, histories: map<string, seq<ConsensusStatus>>) {
    && (forall k :: k in histories ==> NodeHistory(histories[k]))
    && forall cs :: cs in statuses && cs.id.Some? ==>
         KeyOf(cs.id) in histories && cs in histories[KeyOf(cs.id)]
  }

  /** A node that appears among the recruits of two rounds of one term recruited for the same round. */
  lemma SharedRecruitFixesRound(
    histories: map<string, seq<ConsensusStatus>>,
    rev1: TermRevocation, statuses1: seq<ConsensusStatus>, rev2: TermRevocation, statuses2: seq<ConsensusStatus>)
    requires SnapshotsOf(statuses1, histories) && SnapshotsOf(statuses2, histories)
    requires rev1.revokedBelowTerm == rev2.revokedBelowTerm
    requires Meet(StatusKeys(RoundRecruits(rev1, statuses1)), StatusKeys(RoundRecruits(rev2, statuses2)))
    ensures SameRound(rev1, rev2)
  {
    RecruitsAccepted(rev1, statuses1);
    RecruitsAccepted(rev2, statuses2);
    hide RoundRecruits, StatusKeys;
    var k :| k in StatusKeys(RoundRecruits(rev1, statuses1)) && k in StatusKeys(RoundRecruits(rev2, statuses2));
    var a := KeyedStatus(RoundRecruits(rev1, statuses1), k);
    var b := KeyedStatus(RoundRecruits(rev2, statuses2), k);
    var h := histories[k];
    var i :| 0 <= i < |h| && h[i] == a;
    var j :| 0 <= j < |h| && h[j] == b;
    if i <= j { PromisesNeverWeaken(h, i, j); } else { PromisesNeverWeaken(h, j, i); }
  }

  lemma SameCohortRoundsMeet(
    recruits1: seq<ConsensusStatus>, pos1: Option<RulePosition>,
    recruits2: seq<ConsensusStatus>, pos2: Option<RulePosition>)
    requires RoundFroze(recruits1, pos1) && RoundFroze(recruits2, pos2)
    requires Keys(CohortOf(DecisionOf(pos1))) == Keys(CohortOf(DecisionOf(pos2)))
    ensures Meet(StatusKeys(recruits1), StatusKeys(recruits2))
  {
    hide Satisfies, StatusKeys, Keys;
    var cohort := Keys(CohortOf(DecisionOf(pos1)));
    RecruitmentsMeet(PolicyOf(DecisionOf(pos1)).value, PolicyOf(DecisionOf(pos2)).value, cohort,
                     StatusKeys(recruits1) * cohort, StatusKeys(recruits2) * cohort);
    var k :| k in StatusKeys(recruits1) * cohort && k in StatusKeys(recruits2) * cohort;
  }

  /** One round found `pos2`'s decision still undecided on top of another decision. */
  ghost predicate FoundUndecided(pos1: Option<RulePosition>, pos2: Option<RulePosition>) {
    !IsRuleDecided(pos1) && ProposalOf(pos1) == DecisionOf(pos2) && DuplicateFreeAt(pos1)
  }

  lemma CrossEpochRoundsMeet(
    recruits1: seq<ConsensusStatus>, pos1: Option<RulePosition>,
    recruits2: seq<ConsensusStatus>, pos2: Option<RulePosition>)
    requires RoundFroze(recruits1, pos1) && RoundFroze(recruits2, pos2)
    requires FoundUndecided(pos1, pos2)
    ensures Meet(StatusKeys(recruits1), StatusKeys(recruits2))
  {
    hide Frozen, CanFinish, StatusKeys, Keys;
    CrossEpochOverlap(InForce(DecisionOf(pos1)), InForce(DecisionOf(pos2)), StatusKeys(recruits1),
                      StatusKeys(recruits2));
  }

  /** Term exclusivity: two rounds of one term that both produced a proposal are one round, when they found
      decisions with the same cohort, or when one found undecided what the other found decided. */
  lemma TermExclusivity(
    histories: map<string, seq<ConsensusStatus>>,
    rev1: TermRevocation, statuses1: seq<ConsensusStatus>, builder1: Builder,
    rev2: TermRevocation, statuses2: seq<ConsensusStatus>, builder2: Builder)
    requires SnapshotsOf(statuses1, histories) && SnapshotsOf(statuses2, histories)
    requires rev1.revokedBelowTerm == rev2.revokedBelowTerm
    requires BuildSafeProposal(Some(rev1), statuses1, builder1).Ok?
    requires BuildSafeProposal(Some(rev2), statuses2, builder2).Ok?
    requires var pos1, pos2 := RoundPosition(rev1, statuses1), RoundPosition(rev2, statuses2);
             || Keys(CohortOf(DecisionOf(pos1))) == Keys(CohortOf(DecisionOf(pos2)))
             || FoundUndecided(pos1, pos2) || FoundUndecided(pos2, pos1)
    ensures SameRound(rev1, rev2)
  {
    var recruits1, recruits2 := RoundRecruits(rev1, statuses1), RoundRecruits(rev2, statuses2);
    var pos1, pos2 := RoundPosition(rev1, statuses1), RoundPosition(rev2, statuses2);
    var _ := SafeRound(rev1, statuses1, builder1);
    var _ := SafeRound(rev2, statuses2, builder2);
    hide BuildSafeProposal, RoundRecruits, RoundPosition, RoundFroze, StatusKeys, LeadsFrom, Keys;
    if Keys(CohortOf(DecisionOf(pos1))) == Keys(CohortOf(DecisionOf(pos2))) {
      SameCohortRoundsMeet(recruits1, pos1, recruits2, pos2);
    } else if FoundUndecided(pos1, pos2) {
      CrossEpochRoundsMeet(recruits1, pos1, recruits2, pos2);
    } else {
      CrossEpochRoundsMeet(recruits2, pos2, recruits1, pos1);
      var k :| k in StatusKeys(recruits2) && k in StatusKeys(recruits1);
    }
    SharedRecruitFixesRound(histories, rev1, statuses1, rev2, statuses2);
  }

  // ---------------------------------------------------------------- certified rounds

  /** A certified proposal recruited the cohort it proposes, and its leader holds the frozen LSN. */
  lemma CertifiedRound(cert: CertifiedRevocation, statuses: seq<ConsensusStatus>, builder: Builder)
    returns (leader: ConsensusStatus)
    requires BuildCertifiedProposal(cert, statuses, builder).Ok?
    ensures cert.revocation.Some? && cert.frozenLsn.Some?
    ensures var rev, p := cert.revocation.value, BuildCertifiedProposal(cert, statuses, builder).value;
            var recruits, pos := RoundRecruits(rev, statuses), RoundPosition(rev, statuses);
            && LeadsFrom(leader, recruits, pos) && KeyOf(leader.id) == KeyOf(p.leader)
            && LsnOf(leader.current).Some? && LsnOf(leader.current).value >= cert.frozenLsn.value
            && (exists cs :: cs in recruits && PositionOf(cs.current) == pos)
            && rev.outgoingRule == Some(NumberOf(PossiblyUndecidedRule(pos)))
            && PolicyOf(p.transition.proposal).Ok? && Frozen(InForce(p.transition.proposal), StatusKeys(recruits))
            && NumberOf(p.transition.proposal).term == rev.revokedBelowTerm
  {
    hide BuildProposalCore, PossiblyUndecidedRule, CompareRuleNumbers, Recruits, Discover, Frozen, Agree, KeyOf,
      ComparePoolerPosition, StatusKeys, PolicyOf, InForce, Satisfies, SameCohort, Keys, RoundFroze;
    leader := BuiltIsLed(cert.revocation.value, Accepted(cert.revocation.value, statuses), NewCertBasis(cert).value,
                         builder);
  }

  lemma CertifiedFreezes(cert: CertifiedRevocation, statuses: seq<ConsensusStatus>, builder: Builder)
    returns (rule: Option<ShardRule>)
    requires BuildCertifiedProposal(cert, statuses, builder).Ok?
    ensures rule == BuildCertifiedProposal(cert, statuses, builder).value.transition.proposal
    ensures cert.revocation.Some? && PolicyOf(rule).Ok?
    ensures Frozen(InForce(rule), StatusKeys(RoundRecruits(cert.revocation.value, statuses)))
  {
    hide BuildCertifiedProposal, RoundRecruits, RoundPosition, StatusKeys, LeadsFrom, PossiblyUndecidedRule,
      PolicyOf, InForce, Frozen;
    var _ := CertifiedRound(cert, statuses, builder);
    rule := BuildCertifiedProposal(cert, statuses, builder).value.transition.proposal;
  }

  /** Certified retries are exclusive: two attempts at one term that propose the same cohort are one round. */
  lemma CertifiedExclusivity(
    histories: map<string, seq<ConsensusStatus>>,
    cert1: CertifiedRevocation, statuses1: seq<ConsensusStatus>, builder1: Builder,
    cert2: CertifiedRevocation, statuses2: seq<ConsensusStatus>, builder2: Builder)
    requires SnapshotsOf(statuses1, histories) && SnapshotsOf(statuses2, histories)
    requires TermOfRevocation(cert1.revocation) == TermOfRevocation(cert2.revocation)
    requires BuildCertifiedProposal(cert1, statuses1, builder1).Ok?
    requires BuildCertifiedProposal(cert2, statuses2, builder2).Ok?
    requires Keys(CohortOf(BuildCertifiedProposal(cert1, statuses1, builder1).value.transition.proposal))
             == Keys(CohortOf(BuildCertifiedProposal(cert2, statuses2, builder2).value.transition.proposal))
    ensures cert1.revocation.Some? && cert2.revocation.Some?
    ensures SameRound(cert1.revocation.value, cert2.revocation.value)
  {
    hide BuildCertifiedProposal, RoundRecruits, RoundPosition, StatusKeys, LeadsFrom, Keys, Sufficient, CohortOf,
      PossiblyUndecidedRule, SnapshotsOf, SameRound, PolicyOf;
    var rule1 := CertifiedFreezes(cert1, statuses1, builder1);
    var rule2 := CertifiedFreezes(cert2, statuses2, builder2);
    var recruits1 := StatusKeys(RoundRecruits(cert1.revocation.value, statuses1));
    var recruits2 := StatusKeys(RoundRecruits(cert2.revocation.value, statuses2));
    var cohort := Keys(CohortOf(rule1));
    RecruitmentsMeet(PolicyOf(rule1).value, PolicyOf(rule2).value, cohort, recruits1 * cohort, recruits2 * cohort);
    var k :| k in recruits1 * cohort && k in recruits2 * cohort;
    SharedRecruitFixesRound(histories, cert1.revocation.value, statuses1, cert2.revocation.value, statuses2);
  }

  /** Past the outgoing rule: a later decision, or something already proposed on it. */
  predicate PastRule(cs: ConsensusStatus, outgoing: RuleNumber) {
    CompareNumbers(Numbers(PositionOf(cs.current)), NumberPosition(outgoing, UNSET)) > 0
  }

  /** A stale cert fails: every quorum of the cohort a certified attempt proposes contains a node that accepted
      the revocation and records nothing past the outgoing rule. */
  lemma StaleCertFails(
    cert: CertifiedRevocation, statuses: seq<ConsensusStatus>, builder: Builder, holders: set<string>)
    returns (cs: ConsensusStatus)
    requires BuildCertifiedProposal(cert, statuses, builder).Ok?
    requires forall s :: s in statuses ==> WellNumbered(PositionOf(s.current))
    requires var rule := BuildCertifiedProposal(cert, statuses, builder).value.transition.proposal;
             PolicyOf(rule).Ok? ==> Quorum(InForce(rule), holders)
    ensures cs in statuses && cs.revocation == cert.revocation && KeyOf(cs.id) in holders
    ensures !PastRule(cs, OutgoingOf(cert.revocation))
  {
    var leader := CertifiedRound(cert, statuses, builder);
    var rule := BuildCertifiedProposal(cert, statuses, builder).value.transition.proposal;
    var rev := cert.revocation.value;
    var recruits, pos := RoundRecruits(rev, statuses), RoundPosition(rev, statuses);
    RecruitsAccepted(rev, statuses);
    hide BuildCertifiedProposal, RoundRecruits, RoundPosition, StatusKeys, Keys, Satisfies, CompareRulePosition,
      ComparePoolerPosition, CompareNumbers, HasValidPosition, PossiblyUndecidedRule, KeyOf, WellNumbered, PolicyOf;
    var frozen := StatusKeys(recruits) * Keys(CohortOf(rule));
    RecruitmentMeetsQuorum(InForce(rule), frozen, holders);
    var k :| k in frozen && k in holders;
    cs := KeyedStatus(recruits, k);
    BehindLeader(leader.current, cs.current, pos);
    var top :| top in recruits && PositionOf(top.current) == pos;
    assert WellNumbered(pos);
    NotPast(PositionOf(cs.current), pos);
  }

  lemma BehindLeader(leader: Option<PoolerPosition>, cs: Option<PoolerPosition>, pos: Option<RulePosition>)
    requires ComparePoolerPosition(leader, cs) >= 0 && CompareRulePosition(PositionOf(leader), pos) == 0
    ensures CompareRulePosition(PositionOf(cs), pos) <= 0
  {
  }

  lemma NotPast(p: Option<RulePosition>, pos: Option<RulePosition>)
    requires CompareRulePosition(p, pos) <= 0 && WellNumbered(pos)
    ensures CompareNumbers(Numbers(p), NumberPosition(NumberOf(PossiblyUndecidedRule(pos)), UNSET)) <= 0
  {
  }
}
