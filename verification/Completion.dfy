/** From a survey to a proposal: the revocation authored from what nodes report names the rule the round discovers, and
    a round that everyone joins completes. */
module Completion {
  import opened Types
  import opened Collections
  import opened Compare
  import opened Durability
  import opened Revocation
  import opened Proposals
  import opened Failover
  import opened PreVote

  /** Nobody surveyed records more than this node. */
  ghost predicate Tops(cs: ConsensusStatus, statuses: seq<ConsensusStatus>) {
    forall s :: s in statuses ==> CompareRulePosition(PositionOf(s.current), PositionOf(cs.current)) <= 0
  }

  /** The recruits of `rev` still record what they did when they were surveyed. */
  ghost predicate StandStill(round: seq<ConsensusStatus>, rev: TermRevocation, statuses: seq<ConsensusStatus>) {
    forall cs :: cs in round && cs.revocation == Some(rev) ==> exists s :: s in statuses && s.current == cs.current
  }

  lemma EqualPositions(a: Option<RulePosition>, b: Option<RulePosition>)
    requires CompareRulePosition(a, b) <= 0 && CompareRulePosition(b, a) <= 0
    ensures Numbers(a) == Numbers(b) && CompareRulePosition(a, b) == 0
    ensures NumberOf(PossiblyUndecidedRule(a)) == NumberOf(PossiblyUndecidedRule(b))
  {
  }

  lemma LevelAndAhead(a: ConsensusStatus, b: ConsensusStatus)
    requires ComparePoolerPosition(a.current, b.current) >= 0 && HasValidPosition(b)
    requires CompareRulePosition(PositionOf(a.current), PositionOf(b.current)) <= 0
    ensures HasValidPosition(a) && CompareRulePosition(PositionOf(b.current), PositionOf(a.current)) <= 0
  {
  }

  /** The node at the top is among the recruits, represented by its most advanced status. */
  lemma TopIsRecruited(rev: TermRevocation, round: seq<ConsensusStatus>, statuses: seq<ConsensusStatus>,
                       top: ConsensusStatus) returns (best: ConsensusStatus)
    requires StandStill(round, rev, statuses) && Tops(top, statuses)
    requires top in round && top.revocation == Some(rev) && top.id.Some? && HasValidPosition(top)
    ensures best in RoundRecruits(rev, round) && Tops(best, statuses)
    ensures CompareRulePosition(PositionOf(top.current), PositionOf(best.current)) <= 0
  {
    hide HasValidPosition, KeyOf, ComparePoolerPosition, CompareRulePosition, Deduplicate;
    var accepted := Accepted(rev, round);
    DeduplicateKeepsTheBest(accepted);
    assert top in accepted;
    assert KeyOf(top.id) in StatusKeys(accepted);
    best := KeyedStatus(Deduplicate(accepted), KeyOf(top.id));
    assert best in round && best.revocation == Some(rev);
    LevelAndAhead(best, top);
    forall s | s in statuses ensures CompareRulePosition(PositionOf(s.current), PositionOf(best.current)) <= 0 {
      Behind(PositionOf(s.current), PositionOf(top.current), PositionOf(best.current));
    }
  }

  lemma Behind(a: Option<RulePosition>, b: Option<RulePosition>, c: Option<RulePosition>)
    requires CompareRulePosition(a, b) <= 0 && CompareRulePosition(b, c) <= 0
    ensures CompareRulePosition(a, c) <= 0
  {
  }

  /** Whoever else answers, a round joined by a node at the top of the survey discovers the very rule the revocation
      leaves; discovery can only fail because recruits disagree on its content. */
  lemma AuthoredRuleIsDiscovered(
    statuses: seq<ConsensusStatus>, coordinator: Option<ID>, initiatedAt: Option<int>, window: int,
    rev: TermRevocation, round: seq<ConsensusStatus>, top: ConsensusStatus, basis: Basis)
    requires NewTermRevocation(statuses, coordinator, initiatedAt, window) == Ok(rev)
    requires StandStill(round, rev, statuses) && Tops(top, statuses)
    requires top in round && top.revocation == Some(rev) && top.id.Some? && HasValidPosition(top)
    ensures rev.outgoingRule == Some(NumberOf(PossiblyUndecidedRule(RoundPosition(rev, round))))
    ensures var r := DiscoverOutgoingRule(RoundRecruits(rev, round), OutgoingOf(Some(rev)), basis);
            && (r.Ok? <==> Agree(RoundRecruits(rev, round), RoundPosition(rev, round)))
            && (r.Err? ==> r.error == InconsistentDiscovery)
  {
    hide HasValidPosition, CompareRulePosition, PossiblyUndecidedRule, RoundRecruits, NewTermRevocation, Discover;
    var recruits, pos := RoundRecruits(rev, round), RoundPosition(rev, round);
    var best := TopIsRecruited(rev, round, statuses, top);
    RecruitsAccepted(rev, round);
    DiscoverIsMaximum(recruits);
    DiscoveryErrors(recruits);
    var cs :| cs in recruits && PositionOf(cs.current) == pos;
    EqualPositions(PositionOf(best.current), pos);
    var s :| s in statuses && s.current == best.current;
    assert MostAdvanced(s, statuses) by { ValidIsSome(best); }
    AuthoredFromSurvey(statuses, coordinator, initiatedAt, window);
    SameNumber(rev.outgoingRule.value);
  }

  /** A survey of usable nodes, one status each. */
  ghost predicate Surveyed(statuses: seq<ConsensusStatus>) {
    && (forall cs :: cs in statuses ==> cs.id.Some? && HasValidPosition(cs) && cs.recruitBlockedUntil.None?)
    && (forall a, b :: a in statuses && b in statuses && KeyOf(a.id) == KeyOf(b.id) ==> a == b)
  }

  lemma AllPromised(statuses: seq<ConsensusStatus>, rev: TermRevocation)
    requires Surveyed(statuses)
    ensures OneEach(rev, Map(statuses, Promised(rev)))
    ensures StatusKeys(Map(statuses, Promised(rev))) == StatusKeys(statuses)
    ensures forall cs :: cs in statuses ==> cs.(revocation := Some(rev)) in Map(statuses, Promised(rev))
    ensures forall cs :: cs in Map(statuses, Promised(rev)) ==>
              exists s :: s in statuses && cs == s.(revocation := Some(rev))
  {
    hide KeyOf;
    var after := Map(statuses, Promised(rev));
    forall i | 0 <= i < |statuses| ensures statuses[i].(revocation := Some(rev)) in after { assert after[i] in after; }
    forall cs | cs in after ensures exists s :: s in statuses && cs == s.(revocation := Some(rev)) {
      var i :| 0 <= i < |after| && after[i] == cs;
      assert statuses[i] in statuses;
    }
    hide Map, Promised, IsUnset;
  }

  lemma PromisesKeepTheLead(statuses: seq<ConsensusStatus>, rev: TermRevocation, leader: ConsensusStatus,
                            p: CoordinatorProposal)
    requires Surveyed(statuses) && RoundFroze(statuses, PositionOf(leader.current))
    requires LeadsFrom(leader, statuses, PositionOf(leader.current)) && Agree(statuses, PositionOf(leader.current))
    requires rev.outgoingRule == Some(NumberOf(PossiblyUndecidedRule(PositionOf(leader.current))))
    requires Proposable(p, rev, PositionOf(leader.current), StatusKeys(statuses), ByRecruitment)
    requires KeyOf(leader.id) == KeyOf(p.leader)
    ensures Leads(leader.(revocation := Some(rev)), rev, Map(statuses, Promised(rev)), ByRecruitment, p)
  {
    hide Map, Promised, KeyOf, StatusKeys, Proposable, ComparePoolerPosition, CompareRulePosition, Frozen, CanFinish,
      PolicyOf, InForce, PossiblyUndecidedRule, IsRuleDecided;
    AllPromised(statuses, rev);
  }

  /** The most advanced node of a survey, whose rule the revocation leaves. */
  lemma SurveyTop(statuses: seq<ConsensusStatus>, leader: ConsensusStatus)
    requires Surveyed(statuses) && LeadsFrom(leader, statuses, PositionOf(leader.current))
    requires WellNumbered(PositionOf(leader.current))
    ensures MostAdvanced(leader, statuses) && WellNumbered(MaxPosition(statuses))
  {
    forall s | s in statuses ensures CompareRulePosition(PositionOf(s.current), PositionOf(leader.current)) <= 0 {
      AheadInRule(leader.current, s.current);
    }
    SurveyBounds(statuses, leader);
    MaxPositionIsReported(statuses);
    hide MaxPosition, HasValidPosition, CompareRulePosition;
    assert PositionOf(leader.current).Some? by { ValidIsSome(leader); }
    var top :| top in statuses && PositionOf(top.current) == MaxPosition(statuses);
    EqualPositions(MaxPosition(statuses), PositionOf(leader.current));
  }

  lemma AheadInRule(a: Option<PoolerPosition>, b: Option<PoolerPosition>)
    requires ComparePoolerPosition(a, b) >= 0
    ensures CompareRulePosition(PositionOf(b), PositionOf(a)) <= 0
  {
  }

  /** Nobody in a survey promised to leave a rule later than this. */
  ghost predicate NobodyAhead(statuses: seq<ConsensusStatus>, outgoing: RuleNumber) {
    forall cs :: cs in statuses ==> CompareRuleNumbers(OutgoingOf(cs.revocation), outgoing) <= 0
  }

  /** A failover completes. Survey usable nodes whose most advanced ones agree, that freeze the rule those record and
      can finish what is stuck on it, none of which promised to leave a later rule: the coordinator authors a
      revocation, every node accepts it, and accepts it again when it is asked to lead, and the round builds any
      proposal that says what it must and names the most advanced node. */
  lemma FailoverCompletes(
    statuses: seq<ConsensusStatus>, coordinator: ID, initiatedAt: int, window: int, leader: ConsensusStatus)
    requires coordinator.name != "" && Surveyed(statuses) && WellNumbered(PositionOf(leader.current))
    requires LeadsFrom(leader, statuses, PositionOf(leader.current)) && Agree(statuses, PositionOf(leader.current))
    requires RoundFroze(statuses, PositionOf(leader.current))
    requires NobodyAhead(statuses, NumberOf(PossiblyUndecidedRule(PositionOf(leader.current))))
    ensures NewTermRevocation(statuses, Some(coordinator), Some(initiatedAt), window).Ok?
    ensures var rev := NewTermRevocation(statuses, Some(coordinator), Some(initiatedAt), window).value;
            && (forall cs :: cs in statuses ==> Accepts(cs, rev) && Accepts(cs.(revocation := Some(rev)), rev))
            && forall p :: Proposable(p, rev, PositionOf(leader.current), StatusKeys(statuses), ByRecruitment)
                           && KeyOf(leader.id) == KeyOf(p.leader) ==>
                 BuildSafeProposal(Some(rev), Map(statuses, Promised(rev)), Constant(p)) == Ok(p)
  {
    hide WellNumbered, CompareRulePosition, ComparePoolerPosition, CompareRuleNumbers, NewTermRevocation, Accepts,
      KeyOf, PossiblyUndecidedRule, RoundFroze, Proposable, StatusKeys, BuildSafeProposal, Map, Promised, Agree,
      HasValidPosition, LeadsFrom, OneEach;
    assert leader in statuses by { LeaderAnswers(statuses, leader); }
    SurveyTop(statuses, leader);
    AuthoredFromSurvey(statuses, Some(coordinator), Some(initiatedAt), window);
    var rev := NewTermRevocation(statuses, Some(coordinator), Some(initiatedAt), window).value;
    forall cs | cs in statuses ensures Accepts(cs, rev) && Accepts(cs.(revocation := Some(rev)), rev) {
      EveryoneAccepts(statuses, coordinator, initiatedAt, window, leader, cs);
      AcceptanceIsIdempotent(cs, rev);
    }
    AllPromised(statuses, rev);
    forall p | Proposable(p, rev, PositionOf(leader.current), StatusKeys(statuses), ByRecruitment)
               && KeyOf(leader.id) == KeyOf(p.leader)
      ensures BuildSafeProposal(Some(rev), Map(statuses, Promised(rev)), Constant(p)) == Ok(p)
    {
      PromisesKeepTheLead(statuses, rev, leader, p);
      RoundSucceeds(rev, Map(statuses, Promised(rev)), leader.(revocation := Some(rev)), p, Constant(p));
    }
  }

  lemma LeaderAnswers(statuses: seq<ConsensusStatus>, leader: ConsensusStatus)
    requires LeadsFrom(leader, statuses, PositionOf(leader.current))
    ensures leader in statuses
  {
  }

  lemma EveryoneAccepts(statuses: seq<ConsensusStatus>, coordinator: ID, initiatedAt: int, window: int,
                        leader: ConsensusStatus, cs: ConsensusStatus)
    requires coordinator.name != "" && Surveyed(statuses) && cs in statuses
    requires MostAdvanced(leader, statuses) && WellNumbered(MaxPosition(statuses))
    requires NobodyAhead(statuses, NumberOf(PossiblyUndecidedRule(PositionOf(leader.current))))
    ensures NewTermRevocation(statuses, Some(coordinator), Some(initiatedAt), window).Ok?
    ensures Accepts(cs, NewTermRevocation(statuses, Some(coordinator), Some(initiatedAt), window).value)
  {
    hide WellNumbered, CompareRulePosition, NewTermRevocation, Accepts, PossiblyUndecidedRule;
    AuthoredFromSurvey(statuses, Some(coordinator), Some(initiatedAt), window);
    NewTermRevocationIsAccepted(statuses, coordinator, initiatedAt, window, cs);
  }
}
