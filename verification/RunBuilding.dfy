/** Building runs: each operation extends a valid run by steps whose conditions hold in its last state. */
module RunBuilding {
  import opened Types
  import opened Collections
  import opened Compare
  import opened Policy
  import opened Durability
  import opened Revocation
  import opened Proposals
  import opened Failover
  import opened Protocol
  import opened ProtocolInvariants
  import opened ProtocolHistory

  function Last(run: Run): State
    requires |run.states| > 0
  {
    run.states[|run.states| - 1]
  }

  ghost predicate Runs(run: Run, s: State) { Valid(run) && |run.states| > 0 && Last(run) == s }

  lemma Begin(s: State) returns (run: Run)
    requires Init(s)
    ensures Runs(run, s)
  {
    run := Run([s], []);
  }

  function Then(run: Run, a: Action, s: State): Run { Run(run.states + [s], run.actions + [a]) }

  lemma Extend(run: Run, a: Action, s: State)
    requires Valid(run) && Step(Then(run, a, s), |run.actions|)
    ensures Runs(Then(run, a, s), s)
  {
    hide Step, Init;
    Lengths(run);
    var next := Then(run, a, s);
    forall j | 0 <= j < |next.actions| ensures Step(next, j) {
      if j < |run.actions| {
        assert next.states[..j + 2] == run.states[..j + 2] && next.actions[..j + 1] == run.actions[..j + 1];
        StepLooksBack(run, next, j);
      }
    }
    assert next.states[0] == run.states[0];
  }

  // ---------------------------------------------------------------- leaders write

  /** Every one of `nodes` holds `wal` from tenure `t`, now. */
  ghost predicate HoldNow(s: State, t: nat, wal: Wal, nodes: set<string>) {
    forall k :: k in nodes ==> k in s.nodes && s.nodes[k].source == t && wal <= s.nodes[k].wal
  }

  lemma HeldIsAcknowledged(run: Run, t: nat, wal: Wal, nodes: set<string>, i: nat)
    requires i < |run.states| && HoldNow(run.states[i], t, wal, nodes)
    ensures AckedBy(run, t, wal, nodes, i)
  {
    forall k | k in nodes
      ensures exists a: nat :: a <= i && Acked(run, t, wal, k, a)
    {
      assert Acked(run, t, wal, k, i);
    }
  }

  ghost predicate MayWrite(s: State, t: nat, e: Entry, nodes: set<string>)
    requires t < |s.tenures|
  {
    var log := s.tenures[t].log;
    && Follows(PositionAt(log), e)
    && match e
       case Decide => WriteQuorum(log, nodes) && HoldNow(s, t, log, nodes)
       case Propose(rule) =>
         if DecidedNumber(log).term < Term(s.tenures[t]) then rule == s.tenures[t].opening
         else rule.number == RuleNumber(Term(s.tenures[t]), DecidedNumber(log).subterm + 1)
       case Write(_) => DecidedNumber(log).term == Term(s.tenures[t])
  }

  function Wrote(s: State, t: nat, e: Entry): State
    requires t < |s.tenures|
  {
    s.(tenures := s.tenures[t := s.tenures[t].(log := s.tenures[t].log + [e])])
  }

  lemma DoWrite(run: Run, s: State, t: nat, e: Entry, nodes: set<string>) returns (next: Run)
    requires Runs(run, s) && t < |s.tenures| && MayWrite(s, t, e, nodes)
    ensures Runs(next, Wrote(s, t, e))
  {
    hide Valid, WriteQuorum, Follows, PositionAt, DecidedNumber;
    Lengths(run);
    next := Then(run, Append(t, e, nodes), Wrote(s, t, e));
    if e.Decide? { HeldIsAcknowledged(next, t, s.tenures[t].log, nodes, |run.actions|); }
    hide AckedBy, HoldNow;
    Extend(run, Append(t, e, nodes), Wrote(s, t, e));
  }

  // ---------------------------------------------------------------- nodes follow

  function Adopted(nodes: map<string, Node>, ks: set<string>, wal: Wal, t: nat): map<string, Node> {
    map k | k in nodes :: if k in ks then nodes[k].(wal := wal, source := t) else nodes[k]
  }

  ghost predicate MayFollow(s: State, k: string, t: nat, wal: Wal, z: RulePosition) {
    && k in s.nodes && t < |s.tenures| && wal <= s.tenures[t].log && Delivered(s.tenures[t], t == 0, z)
    && !IsRuleRevoked(Some(z), s.nodes[k].promise) && ComparePoolerPosition(At(wal), At(s.nodes[k].wal)) >= 0
  }

  lemma {:induction false} DoFollow(run: Run, s: State, ks: set<string>, t: nat, wal: Wal, z: RulePosition)
    returns (next: Run)
    requires Runs(run, s) && forall k :: k in ks ==> MayFollow(s, k, t, wal, z)
    ensures Runs(next, s.(nodes := Adopted(s.nodes, ks, wal, t)))
    decreases |ks|
  {
    hide Valid, Delivered, IsRuleRevoked, ComparePoolerPosition, At;
    if ks == {} {
      next := run;
      assert Adopted(s.nodes, ks, wal, t) == s.nodes;
    } else {
      var k :| k in ks;
      var rest := DoFollow(run, s, ks - {k}, t, wal, z);
      var s' := s.(nodes := Adopted(s.nodes, ks - {k}, wal, t));
      assert MayFollow(s, k, t, wal, z);
      var a := Replicate(k, t, |wal|, z);
      var s'' := s.(nodes := Adopted(s.nodes, ks, wal, t));
      assert s''.nodes == s'.nodes[k := s'.nodes[k].(wal := wal, source := t)];
      assert s.tenures[t].log[..|wal|] == wal;
      Lengths(rest);
      next := Then(rest, a, s'');
      Extend(rest, a, s'');
    }
  }

  // ---------------------------------------------------------------- coordinators recruit and promote

  function Pledged(nodes: map<string, Node>, ks: set<string>, rev: TermRevocation): map<string, Node> {
    map k | k in nodes :: if k in ks then nodes[k].(promise := Some(rev)) else nodes[k]
  }

  lemma {:induction false} DoRecruit(run: Run, s: State, ks: set<string>, rev: TermRevocation) returns (next: Run)
    requires Runs(run, s) && forall k :: k in ks ==> k in s.nodes && Accepts(StatusOf(s.nodes[k]), rev)
    ensures Runs(next, s.(nodes := Pledged(s.nodes, ks, rev)))
    decreases |ks|
  {
    hide Valid, Accepts, At;
    if ks == {} {
      next := run;
      assert Pledged(s.nodes, ks, rev) == s.nodes;
    } else {
      var k :| k in ks;
      var rest := DoRecruit(run, s, ks - {k}, rev);
      var s' := s.(nodes := Pledged(s.nodes, ks - {k}, rev));
      var s'' := s.(nodes := Pledged(s.nodes, ks, rev));
      assert s'.nodes[k] == s.nodes[k] && s''.nodes == s'.nodes[k := s'.nodes[k].(promise := Some(rev))];
      Lengths(rest);
      next := Then(rest, Recruit(k, rev), s'');
      Extend(rest, Recruit(k, rev), s'');
    }
  }

  /** The recruits `ks` of a round, with `leader` the most advanced of them. */
  ghost predicate Recruited(s: State, ks: set<string>, rev: TermRevocation, leader: string) {
    && ks <= s.nodes.Keys && leader in ks
    && var wal := s.nodes[leader].wal;
    && (forall k :: k in ks ==>
          && s.nodes[k].promise == Some(rev) && ClusterKey(s.nodes[k].id) == k
          && !IsUnset(DecidedNumber(s.nodes[k].wal))
          && ComparePoolerPosition(At(wal), At(s.nodes[k].wal)) >= 0
          && (CompareRulePosition(Some(PositionAt(s.nodes[k].wal)), Some(PositionAt(wal))) == 0 ==>
                PositionAt(s.nodes[k].wal) == PositionAt(wal)))
    && Froze(PositionAt(wal), ks) && rev.outgoingRule == Some(LastRule(wal))
    && (forall t :: 0 < t < |s.tenures| ==> !SameRound(s.tenures[t].rev, rev))
  }

  /** A rule that a round whose leader records `wal` may propose. */
  ghost predicate MayPropose(rule: ShardRule, rev: TermRevocation, wal: Wal, ks: set<string>) {
    && rule.number == RuleNumber(rev.revokedBelowTerm, 0) && rule.coordinator.Some? && rule.creationTime.Some?
    && PolicyOf(Some(rule)).Ok? && Satisfies(PolicyOf(Some(rule)).value, ks * Keys(rule.cohort))
    && (PositionAt(wal).proposal.Some? && !IsRuleDecided(Some(PositionAt(wal))) ==>
          && rule.policy == PositionAt(wal).proposal.value.policy
          && SameCohort(rule.cohort, PositionAt(wal).proposal.value.cohort))
  }

  function StatusesOf(nodes: map<string, Node>, ks: set<string>): seq<ConsensusStatus>
    requires ks <= nodes.Keys
  {
    var order := SortedKeys(ks);
    seq(|order|, i requires 0 <= i < |order| => StatusOf(nodes[order[i]]))
  }

  lemma StatusesOfMembers(nodes: map<string, Node>, ks: set<string>)
    requires ks <= nodes.Keys
    ensures forall cs :: cs in StatusesOf(nodes, ks) <==> exists k :: k in ks && cs == StatusOf(nodes[k])
  {
    hide StatusOf, SortedKeys;
    var order, r := SortedKeys(ks), StatusesOf(nodes, ks);
    forall k | k in ks ensures StatusOf(nodes[k]) in r {
      assert k in order;
      var i :| 0 <= i < |order| && order[i] == k;
      assert r[i] == StatusOf(nodes[k]);
    }
    forall cs | cs in r ensures exists k :: k in ks && cs == StatusOf(nodes[k]) {
      var i :| 0 <= i < |r| && r[i] == cs;
      assert order[i] in order;
    }
  }

  lemma StatusKeysOf(nodes: map<string, Node>, ks: set<string>)
    requires ks <= nodes.Keys && forall k :: k in ks ==> ClusterKey(nodes[k].id) == k
    ensures StatusKeys(StatusesOf(nodes, ks)) == ks
  {
    hide At, ClusterKey, StatusesOf;
    StatusesOfMembers(nodes, ks);
    forall k | k in ks ensures k in StatusKeys(StatusesOf(nodes, ks)) {
      assert StatusOf(nodes[k]) in StatusesOf(nodes, ks) && KeyOf(StatusOf(nodes[k]).id) == k;
    }
  }

  function ProposalFor(rule: ShardRule, rev: TermRevocation, id: ID, wal: Wal): CoordinatorProposal {
    CoordinatorProposal(Some(rev), false, Some(id),
                        RulePosition(PossiblyUndecidedRule(Some(PositionAt(wal))), Some(rule)))
  }

  lemma RecruitedStatuses(s: State, ks: set<string>, rev: TermRevocation, leader: string)
    requires Recruited(s, ks, rev, leader)
    ensures var statuses, lead := StatusesOf(s.nodes, ks), StatusOf(s.nodes[leader]);
            && OneEach(rev, statuses) && lead in statuses && Agree(statuses, PositionOf(lead.current))
            && (forall cs :: cs in statuses ==> ComparePoolerPosition(lead.current, cs.current) >= 0)
            && StatusKeys(statuses) == ks && RoundFroze(statuses, PositionOf(lead.current))
  {
    hide PositionAt, ComparePoolerPosition, CompareRulePosition, ClusterKey, StatusesOf, StatusKeys, Frozen,
      CanFinish, PolicyOf, InForce, LastRule, SameRound, IsRuleDecided;
    StatusesOfMembers(s.nodes, ks);
    StatusKeysOf(s.nodes, ks);
  }

  lemma RecruitedPropose(s: State, ks: set<string>, rev: TermRevocation, leader: string, rule: ShardRule)
    requires Recruited(s, ks, rev, leader) && MayPropose(rule, rev, s.nodes[leader].wal, ks)
    ensures var p, statuses := ProposalFor(rule, rev, s.nodes[leader].id, s.nodes[leader].wal), StatusesOf(s.nodes, ks);
            && BuildSafeProposal(Some(rev), statuses, Constant(p)) == Ok(p)
            && LeadsFrom(StatusOf(s.nodes[leader]), RoundRecruits(rev, statuses), RoundPosition(rev, statuses))
  {
    RecruitedStatuses(s, ks, rev, leader);
    var p, statuses := ProposalFor(rule, rev, s.nodes[leader].id, s.nodes[leader].wal), StatusesOf(s.nodes, ks);
    var lead := StatusOf(s.nodes[leader]);
    RecruitedLead(s, ks, rev, leader, rule);
    hide Leads, OneEach, BuildSafeProposal, LeadsFrom, RoundRecruits, RoundPosition, MayPropose, Recruited;
    RoundSucceeds(rev, statuses, lead, p, Constant(p));
  }

  lemma RecruitedLead(s: State, ks: set<string>, rev: TermRevocation, leader: string, rule: ShardRule)
    requires Recruited(s, ks, rev, leader) && MayPropose(rule, rev, s.nodes[leader].wal, ks)
    ensures var p := ProposalFor(rule, rev, s.nodes[leader].id, s.nodes[leader].wal);
            Leads(StatusOf(s.nodes[leader]), rev, StatusesOf(s.nodes, ks), ByRecruitment, p)
  {
    RecruitedStatuses(s, ks, rev, leader);
    var id, wal, lead := s.nodes[leader].id, s.nodes[leader].wal, StatusOf(s.nodes[leader]);
    ProposableHere(wal, rule, rev, id, ks);
    LeaderOf(rule, rev, id, wal);
    assert PositionOf(lead.current) == Some(PositionAt(wal)) && rev.outgoingRule == Some(LastRule(wal));
    hide PositionAt, ComparePoolerPosition, ClusterKey, StatusesOf, StatusKeys, RoundFroze, OneEach, Agree, MayPropose,
      Proposable, ProposalFor, Recruited, LastRule;
    assert rev.outgoingRule == Some(NumberOf(PossiblyUndecidedRule(Some(PositionAt(wal))))) by { LastRuleIs(wal); }
    hide PossiblyUndecidedRule;
  }

  lemma LastRuleIs(wal: Wal)
    ensures LastRule(wal) == NumberOf(PossiblyUndecidedRule(Some(PositionAt(wal))))
  {
  }

  lemma LeaderOf(rule: ShardRule, rev: TermRevocation, id: ID, wal: Wal)
    ensures ProposalFor(rule, rev, id, wal).leader == Some(id)
    ensures ProposalFor(rule, rev, id, wal).transition.proposal == Some(rule)
  {
  }

  lemma ProposableHere(wal: Wal, rule: ShardRule, rev: TermRevocation, id: ID, ks: set<string>)
    requires MayPropose(rule, rev, wal, ks) && rev.outgoingRule == Some(LastRule(wal))
    ensures Proposable(ProposalFor(rule, rev, id, wal), rev, Some(PositionAt(wal)), ks, ByRecruitment)
  {
    hide PositionAt, Keys, Satisfies, SameCohort, PolicyOf;
  }

  lemma DoPromote(run: Run, s: State, ks: set<string>, rev: TermRevocation, leader: string, rule: ShardRule)
    returns (next: Run)
    requires Runs(run, s) && Recruited(s, ks, rev, leader) && MayPropose(rule, rev, s.nodes[leader].wal, ks)
    ensures Runs(next, s.(tenures := s.tenures + [Tenure(rev, rule, s.nodes[leader].wal, s.nodes[leader].wal)]))
    ensures |next.states| == |run.states| + 1 && next.states[|run.states| - 1] == s
  {
    hide Valid, PositionAt, ComparePoolerPosition, CompareRulePosition, Froze, MayPropose, StatusesOf, LastRule,
      DecidedNumber, SameRound, BuildSafeProposal, LeadsFrom, RoundRecruits, RoundPosition, ProposalFor, Constant,
      Step;
    RecruitedPropose(s, ks, rev, leader, rule);
    Lengths(run);
    LeaderOf(rule, rev, s.nodes[leader].id, s.nodes[leader].wal);
    assert rule.number == RuleNumber(rev.revokedBelowTerm, 0) by { OpeningNumber(rule, rev, s.nodes[leader].wal, ks); }
    var p := ProposalFor(rule, rev, s.nodes[leader].id, s.nodes[leader].wal);
    var i := |run.states| - 1;
    var a := Promote(rev, StatusesOf(s.nodes, ks), Constant(p), leader, i);
    var s' := s.(tenures := s.tenures + [Tenure(rev, rule, s.nodes[leader].wal, s.nodes[leader].wal)]);
    next := Then(run, a, s');
    forall cs | cs in a.statuses
      ensures exists b, j :: 0 <= b <= i && j in next.states[b].nodes && cs == StatusOf(next.states[b].nodes[j])
    {
      StatusFrom(s.nodes, ks, cs, next, i);
    }
    PromotionStep(next, i, p);
    Extend(run, a, s');
  }

  lemma OpeningNumber(rule: ShardRule, rev: TermRevocation, wal: Wal, ks: set<string>)
    requires MayPropose(rule, rev, wal, ks)
    ensures rule.number == RuleNumber(rev.revokedBelowTerm, 0)
  {
    hide PositionAt, Satisfies, SameCohort, Keys;
  }

  lemma PromotionStep(run: Run, i: nat, p: CoordinatorProposal)
    requires i < |run.actions| && i + 1 < |run.states| && run.actions[i].Promote?
    requires var a, s, s' := run.actions[i], run.states[i], run.states[i + 1];
             && (forall cs :: cs in a.statuses ==>
                   exists b, j :: 0 <= b <= i && j in run.states[b].nodes && cs == StatusOf(run.states[b].nodes[j]))
             && BuildSafeProposal(Some(a.rev), a.statuses, a.builder) == Ok(p)
             && (forall t :: 0 < t < |s.tenures| ==> !SameRound(s.tenures[t].rev, a.rev))
             && p.transition.proposal.Some? && a.at == i && a.key in s.nodes && a.key == KeyOf(p.leader)
             && LeadsFrom(StatusOf(s.nodes[a.key]), RoundRecruits(a.rev, a.statuses), RoundPosition(a.rev, a.statuses))
             && p.transition.proposal.value.number == RuleNumber(a.rev.revokedBelowTerm, 0)
             && var wal := s.nodes[a.key].wal;
                s' == s.(tenures := s.tenures + [Tenure(a.rev, p.transition.proposal.value, wal, wal)])
    ensures Step(run, i)
  {
    hide BuildSafeProposal, LeadsFrom, RoundRecruits, RoundPosition, SameRound, At;
  }

  lemma StatusFrom(nodes: map<string, Node>, ks: set<string>, cs: ConsensusStatus, run: Run, i: nat)
    requires ks <= nodes.Keys && cs in StatusesOf(nodes, ks) && i < |run.states| && run.states[i].nodes == nodes
    ensures exists b, j :: 0 <= b <= i && j in run.states[b].nodes && cs == StatusOf(run.states[b].nodes[j])
  {
    hide StatusesOf, At;
    StatusesOfMembers(nodes, ks);
    var k :| k in ks && cs == StatusOf(nodes[k]);
    assert k in run.states[i].nodes;
  }
}
