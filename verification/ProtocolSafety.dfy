/** Safety over whole runs: one leader per term, and no durable history is ever lost or forked. */
module ProtocolSafety {
  import opened Types
  import opened Compare
  import opened Durability
  import opened Revocation
  import opened Proposals
  import opened Failover
  import opened Protocol
  import opened ProtocolInvariants
  import opened ProtocolHistory
  import opened RuleFamilies

  // ---------------------------------------------------------------- runs that change rules step by step

  /** Two rules that count alike: the same policy over the same nodes. */
  ghost predicate SameConfig(a: Option<ShardRule>, b: Option<ShardRule>) {
    PolicyOf(a).Ok? && PolicyOf(a) == PolicyOf(b) && Keys(CohortOf(a)) == Keys(CohortOf(b))
  }

  ghost predicate FreezesAt(pos: RulePosition) {
    PolicyOf(pos.decision).Ok? && PolicyOf(pos.proposal).Ok? ==>
      FreezesProposalToo(InForce(pos.decision), InForce(pos.proposal))
  }

  /** Cohorts repeat no node, and every proposal that was decided is frozen along with the decision it stood on. */
  ghost predicate SoundLog(log: Wal) {
    && (forall j :: 0 <= j < |log| && log[j].Propose? ==> |Keys(log[j].rule.cohort)| == |log[j].rule.cohort|)
    && (forall x :: 0 <= x < |log| && log[x].Decide? ==> FreezesAt(PositionAt(log[..x])))
  }

  /** The tenure decided a rule of its own in this WAL, and the configuration has not changed since. */
  ghost predicate ConfirmedBy(t: Tenure, x: nat, wal: Wal) {
    && Anchor(t, x) && t.log[..x] <= wal && CompareRuleNumbers(DecidedNumber(wal), LastRule(t.log[..x])) >= 0
    && forall j :: x < j <= |wal| && CompareRuleNumbers(DecidedNumber(wal[..j]), LastRule(t.log[..x])) >= 0 ==>
         SameConfig(PositionAt(wal[..j]).decision, PositionAt(t.log[..x]).proposal)
  }

  ghost predicate Confirmed(s: State, wal: Wal) {
    exists t, x: nat :: 0 <= t < |s.tenures| && ConfirmedBy(s.tenures[t], x, wal)
  }

  /** A round rests on a decision whose configuration the leader that introduced it, or a later one, confirmed. */
  ghost predicate ConfirmedRound(run: Run, c: nat)
    requires c + 1 < |run.states|
  {
    |run.states[c].tenures| < |run.states[c + 1].tenures| ==>
      Confirmed(run.states[c], run.states[c + 1].tenures[|run.states[c].tenures|].start)
  }

  ghost predicate ConfirmedRounds(run: Run) { forall c :: 0 <= c < |run.states| - 1 ==> ConfirmedRound(run, c) }

  /** A rule that some leadership writes, or that a round proposed. */
  ghost predicate Used(run: Run, rule: ShardRule) {
    exists t :: 0 <= t < |Tenures(run)| && (Tenures(run)[t].opening == rule || Propose(rule) in Tenures(run)[t].log)
  }

  /** Recruits that could have passed on `rule`: they freeze it and satisfy some rule to be proposed. */
  ghost predicate Effective(run: Run, rule: ShardRule, recruits: set<string>) {
    && PolicyOf(Some(rule)).Ok? && Frozen(InForce(Some(rule)), recruits)
    && exists opening :: Used(run, opening) && CanOpen(opening, recruits)
  }

  /** Any two rules of the run freeze each other, and rounds on them overlap. */
  ghost predicate Interlocked(run: Run) {
    && (forall x, y :: Used(run, x) && Used(run, y) && PolicyOf(Some(x)).Ok? && PolicyOf(Some(y)).Ok? ==>
          FreezesProposalToo(InForce(Some(x)), InForce(Some(y))))
    && (forall x, y, r, r' :: Used(run, x) && Used(run, y) && Effective(run, x, r) && Effective(run, y, r') ==>
         Meet(r, r'))
  }

  ghost predicate SoundLogs(run: Run) { forall t :: 0 <= t < |Tenures(run)| ==> SoundLog(Tenures(run)[t].log) }

  ghost predicate Orderly(run: Run) { SoundLogs(run) && (ConfirmedRounds(run) || Interlocked(run)) }

  // ---------------------------------------------------------------- runs that mix compatible rules

  /** Every rule written during the run takes its policy and cohort from the family. */
  ghost predicate Governed(run: Run, family: set<PolicyWithCohort>) {
    forall t, j :: 0 <= t < |Tenures(run)| && 0 <= j < |Tenures(run)[t].log| ==>
      GovernedEntry(Tenures(run)[t].log[j], family)
  }

  ghost predicate GovernedEntry(e: Entry, family: set<PolicyWithCohort>) {
    e.Propose? ==> PolicyOf(Some(e.rule)).Ok? && InForce(Some(e.rule)) in family
  }

  ghost predicate Familial(run: Run) { exists family :: Compatible(family) && Governed(run, family) }

  ghost predicate Setup(run: Run) { Valid(run) && (Orderly(run) || Familial(run)) }

  // ---------------------------------------------------------------- both are kept by beginnings of runs

  lemma SoundPrefix(a: Wal, log: Wal)
    requires SoundLog(log) && a <= log
    ensures SoundLog(a)
  {
    hide FreezesAt;
    forall x | 0 <= x < |a| && a[x].Decide? ensures FreezesAt(PositionAt(a[..x])) {
      assert a[..x] == log[..x] && log[x] == a[x];
    }
    assert forall j :: 0 <= j < |a| ==> a[j] == log[j];
  }

  lemma InterlockedUpto(run: Run, other: Run)
    requires Interlocked(run) && |Tenures(other)| <= |Tenures(run)|
    requires forall t :: 0 <= t < |Tenures(other)| ==>
               Tenures(other)[t].opening == Tenures(run)[t].opening && Tenures(other)[t].log <= Tenures(run)[t].log
    ensures Interlocked(other)
  {
    hide PolicyOf, InForce, FreezesProposalToo, Frozen, CanOpen, Meet;
    forall rule | Used(other, rule) ensures Used(run, rule) {
      var t :| 0 <= t < |Tenures(other)|
               && (Tenures(other)[t].opening == rule || Propose(rule) in Tenures(other)[t].log);
      assert Tenures(run)[t].opening == rule || Propose(rule) in Tenures(run)[t].log;
    }
  }

  lemma SetupUpto(run: Run, i: nat)
    requires Setup(run) && i < |run.states|
    ensures |run.states| == |run.actions| + 1 && Setup(Upto(run, i))
    ensures Tenures(Upto(run, i)) == run.states[i].tenures && Genesis(Upto(run, i)) == Genesis(run)
    ensures |run.states[i].tenures| <= |Tenures(run)|
    ensures forall t :: 0 <= t < |run.states[i].tenures| ==>
              && Tenures(run)[t].rev == run.states[i].tenures[t].rev
              && Tenures(run)[t].start == run.states[i].tenures[t].start
              && Tenures(run)[t].opening == run.states[i].tenures[t].opening
              && run.states[i].tenures[t].log <= Tenures(run)[t].log
  {
    hide SoundLog, Confirmed, GovernedEntry, Compatible, NoWeaker, ComparePoolerPosition, Valid, Interlocked;
    UptoValid(run, i);
    RunGrows(run, i, |run.states| - 1);
    var other := Upto(run, i);
    if Orderly(run) {
      forall t | 0 <= t < |Tenures(other)| ensures SoundLog(Tenures(other)[t].log) {
        SoundPrefix(Tenures(other)[t].log, Tenures(run)[t].log);
      }
      if ConfirmedRounds(run) {
        forall c | 0 <= c < |other.states| - 1 ensures ConfirmedRound(other, c) { assert ConfirmedRound(run, c); }
      } else {
        InterlockedUpto(run, other);
      }
    } else {
      var family :| Compatible(family) && Governed(run, family);
      assert Governed(other, family) by {
        forall t, j | 0 <= t < |Tenures(other)| && 0 <= j < |Tenures(other)[t].log|
          ensures GovernedEntry(Tenures(other)[t].log[j], family)
        {
          assert Tenures(other)[t].log[j] == Tenures(run)[t].log[j];
        }
      }
    }
  }

  lemma SetupValid(run: Run)
    requires Setup(run)
    ensures Valid(run) && |run.states| > 0
  {
  }

  /** The configuration a tenure rests on, and where it was confirmed. */
  lemma ConfirmedStart(run: Run, u: nat, c: nat, recruits: set<string>) returns (t: nat, x: nat)
    requires Setup(run) && ConfirmedRounds(run) && 0 < u < |Tenures(run)|
    requires StartedAt(run, u, Tenures(run)[u].rev, Tenures(run)[u].start, c, recruits)
    ensures t < |run.states[c].tenures| && ConfirmedBy(run.states[c].tenures[t], x, Tenures(run)[u].start)
  {
    hide Snapshot, Froze, Held, ConfirmedBy, Valid, SoundLog;
    SetupValid(run);
    SetupUpto(run, c + 1);
    assert ConfirmedRound(run, c);
    var t', x': nat :| 0 <= t' < |run.states[c].tenures|
                       && ConfirmedBy(run.states[c].tenures[t'], x', Tenures(run)[u].start);
    t, x := t', x';
  }

  // ---------------------------------------------------------------- what counting alike gives

  lemma SameConfigFrozen(a: Option<ShardRule>, b: Option<ShardRule>, recruits: set<string>)
    requires SameConfig(a, b)
    ensures PolicyOf(b).Ok?
    ensures Frozen(InForce(a), recruits) <==> Frozen(InForce(b), recruits)
    ensures Finishing(InForce(a), recruits) <==> Finishing(InForce(b), recruits)
    ensures forall nodes :: Quorum(InForce(a), nodes) <==> Quorum(InForce(b), nodes)
  {
    hide Keys, PolicyOf, CohortOf;
  }

  lemma FrozenMeetsQuorum(p: PolicyWithCohort, recruits: set<string>, nodes: set<string>)
    requires Frozen(p, recruits) && Quorum(p, nodes)
    ensures Meet(recruits, nodes)
  {
    hide Keys, Sufficient;
    RecruitmentMeetsQuorum(p, recruits * Keys(p.cohort), nodes);
    var k :| k in recruits * Keys(p.cohort) && k in nodes;
  }

  lemma SameConfigMeets(a: Option<ShardRule>, b: Option<ShardRule>, recruits: set<string>, other: set<string>)
    requires SameConfig(a, b) && Frozen(InForce(a), recruits) && Frozen(InForce(b), other)
    ensures Meet(recruits, other)
  {
    hide Keys, PolicyOf, CohortOf;
    var cohort := Keys(CohortOf(a));
    RecruitmentsMeet(PolicyOf(a).value, PolicyOf(b).value, cohort, recruits * cohort, other * cohort);
    var k :| k in recruits * cohort && k in other * cohort;
  }

  lemma RulesAreDistinct(log: Wal, wal: Wal)
    requires SoundLog(log) && wal <= log
    ensures PolicyOf(PositionAt(wal).decision).Ok? ==> DuplicateFree(InForce(PositionAt(wal).decision))
    ensures PolicyOf(PositionAt(wal).proposal).Ok? ==> DuplicateFree(InForce(PositionAt(wal).proposal))
  {
    hide FreezesAt, PositionAt, Keys;
    DecisionWasProposed(wal);
    assert PolicyOf(None).Err?;
    forall rule | PositionAt(wal).decision == Some(rule) || PositionAt(wal).proposal == Some(rule)
      ensures |Keys(rule.cohort)| == |rule.cohort|
    {
      var j :| 0 <= j < |wal| && wal[j] == Propose(rule);
      assert log[j] == wal[j];
    }
  }

  /** Whatever the policy in force is, its quorums are quorums of the decision. */
  lemma WriteQuorumOfDecision(log: Wal, p: Wal, nodes: set<string>)
    requires SoundLog(log) && p <= log && WriteQuorum(p, nodes)
    ensures PolicyOf(PositionAt(p).decision).Ok? && Quorum(InForce(PositionAt(p).decision), nodes)
  {
    RulesAreDistinct(log, p);
    hide PositionAt, Quorum, BuildPolicyTransition, SoundLog, DuplicateFree, PolicyOf, InForce;
    var pos := PositionAt(p);
    if !IsRuleDecided(Some(pos)) {
      BothRefinesBoth(InForce(pos.decision), InForce(pos.proposal), nodes);
    }
  }

  /** Recruits of a round that found a proposal could make a write durable under the decision it stands on. */
  lemma FinishersOf(log: Wal, start: Wal, recruits: set<string>)
    requires SoundLog(log) && start <= log && WellFormed(start) && Froze(PositionAt(start), recruits)
    requires PositionAt(start).proposal.Some?
    ensures PolicyOf(PositionAt(start).proposal).Ok? && Finishing(InForce(PositionAt(start).decision), recruits)
    ensures CanFinish(InForce(PositionAt(start).decision), InForce(PositionAt(start).proposal), recruits)
  {
    RulesAreDistinct(log, start);
    Numbering(start);
    hide PositionAt, BuildPolicyTransition, SoundLog, DuplicateFree, PolicyOf, InForce, CanFinish, Frozen,
      Finishing, WellFormed;
    var pos := PositionAt(start);
    assert !IsRuleDecided(Some(pos));
    FinishersSatisfyDecision(InForce(pos.decision), InForce(pos.proposal), recruits);
  }

  lemma AnchorProposal(t: Tenure, x: nat, genesis: Wal, first: bool)
    requires TenureOk(t, genesis, first) && Anchor(t, x)
    ensures WellFormed(t.log[..x]) && PositionAt(t.log[..x]).proposal.Some?
  {
    hide PositionAt, LastRule, Shaped;
    PrefixIsBehind(t.log[..x + 1], t.log);
    assert t.log[..x + 1][..x] == t.log[..x] && t.log[..x + 1][x] == t.log[x];
  }

  /** An anchor decided on a confirmed WAL after its own anchor has the same configuration. */
  lemma ConfirmedReaches(t: Tenure, x: nat, wal: Wal, b: Wal)
    requires ConfirmedBy(t, x, wal) && WellFormed(wal) && b <= wal && x <= |b| && PositionAt(b).proposal.Some?
    requires CompareRuleNumbers(DecidedNumber(wal), LastRule(b)) >= 0
    ensures SameConfig(PositionAt(b).proposal, PositionAt(t.log[..x]).proposal)
    ensures SameConfig(PositionAt(wal).decision, PositionAt(b).proposal)
  {
    var j := AfterProposal(b, wal);
    assert t.log[..x] <= b;
    PrefixIsBehind(b, wal);
    PrefixIsBehind(t.log[..x], b);
    hide PositionAt, WellFormed, LastRule, PolicyOf, Keys;
    assert wal[..|wal|] == wal;
  }

  lemma ConfirmedDecision(t: Tenure, x: nat, wal: Wal)
    requires ConfirmedBy(t, x, wal) && WellFormed(wal) && PositionAt(t.log[..x]).proposal.Some?
    ensures SameConfig(PositionAt(wal).decision, PositionAt(t.log[..x]).proposal)
  {
    ConfirmedReaches(t, x, wal, t.log[..x]);
  }

  /** Two rounds on confirmed configurations overlap once each start contains the other's anchor. */
  lemma ConfirmedOverlap(t: Tenure, x: nat, start: Wal, recruits: set<string>,
                         t': Tenure, x': nat, start': Wal, recruits': set<string>, log: Wal, log': Wal)
    requires ConfirmedBy(t, x, start) && ConfirmedBy(t', x', start') && x <= x'
    requires WellFormed(start) && WellFormed(start') && t'.log[..x'] <= start
    requires PositionAt(t.log[..x]).proposal.Some? && PositionAt(t'.log[..x']).proposal.Some?
    requires Froze(PositionAt(start), recruits) && Froze(PositionAt(start'), recruits')
    requires SoundLog(log) && SoundLog(log') && start <= log && start' <= log'
    ensures Meet(recruits, recruits')
  {
    hide PositionAt, WellFormed, LastRule, DecidedNumber, PolicyOf, Keys, SoundLog, InForce, Frozen, CanFinish,
      Meet, Finishing, FreezesProposalToo, Quorum;
    var b := t'.log[..x'];
    ConfirmedDecision(t', x', start');
    if CompareRuleNumbers(DecidedNumber(start), LastRule(b)) >= 0 {
      ConfirmedReaches(t, x, start, b);
      SameConfigMeets(PositionAt(start).decision, PositionAt(start').decision, recruits, recruits');
    } else {
      var _ := AfterProposal(b, start);
      FinishersOf(log, start, recruits);
      RulesAreDistinct(log, start);
      SameConfigFrozen(PositionAt(start').decision, PositionAt(b).proposal, recruits');
      CrossEpochOverlap(InForce(PositionAt(start).decision), InForce(PositionAt(start).proposal), recruits, recruits');
    }
  }

  /** Two starts that fork after a common confirmed history count alike. */
  lemma ForksCountAlike(t: Tenure, x: nat, start: Wal, t': Tenure, x': nat, start': Wal)
    requires ConfirmedBy(t, x, start) && ConfirmedBy(t', x', start')
    requires WellFormed(start) && WellFormed(start') && t'.log[..x'] <= start && t.log[..x] <= start'
    requires PositionAt(t.log[..x]).proposal.Some? && PositionAt(t'.log[..x']).proposal.Some?
    requires CompareRuleNumbers(DecidedNumber(start'), LastRule(start)) < 0
    requires CompareRuleNumbers(LastRule(start'), LastRule(start)) > 0
    ensures SameConfig(PositionAt(start).decision, PositionAt(start').decision)
  {
    hide PositionAt, WellFormed, LastRule, DecidedNumber, PolicyOf, Keys;
    var a, b := t.log[..x], t'.log[..x'];
    ConfirmedDecision(t, x, start);
    ConfirmedDecision(t', x', start');
    Numbering(start);
    if x' <= x {
      var _ := AfterProposal(a, start');
      if CompareRuleNumbers(DecidedNumber(start'), LastRule(a)) >= 0 {
        ConfirmedReaches(t', x', start', a);
      } else {
        SamePositionSameLast(a, start');
        PrefixIsBehind(a, start);
      }
    } else {
      var _ := AfterProposal(b, start);
      if CompareRuleNumbers(DecidedNumber(start), LastRule(b)) >= 0 {
        ConfirmedReaches(t, x, start, b);
      } else {
        SamePositionSameLast(b, start);
        PrefixIsBehind(b, start');
      }
    }
  }

  lemma SamePositionSameLast(a: Wal, b: Wal)
    requires PositionAt(a) == PositionAt(b)
    ensures LastRule(a) == LastRule(b) && DecidedNumber(a) == DecidedNumber(b)
  {
    hide PositionAt;
  }

  // ---------------------------------------------------------------- one leader per term

  lemma FirstIsLowest(run: Run, u: nat)
    requires Valid(run) && 0 < u < |Tenures(run)|
    ensures Ordered(Tenures(run)[0], Tenures(run)[u]) && Term(Tenures(run)[0]) < Term(Tenures(run)[u])
  {
    hide WellFormed, PositionAt, Shaped, LastRule, Step;
    TenureFacts(run, u);
    TenureFacts(run, 0);
    AboveGenesis(run, Tenures(run)[u].start, Tenures(run)[u].log);
  }

  lemma OrderedIsSymmetric(x: Tenure, y: Tenure)
    ensures Ordered(x, y) <==> Ordered(y, x)
  {
    hide LastRule;
  }

  /** A node recruited by two tenures: its promises order the two rounds. */
  lemma SharedRecruitOrders(run: Run, lo: nat, hi: nat, k: string,
                            c: nat, recruits: set<string>, c': nat, recruits': set<string>)
    requires Valid(run) && 0 < lo < hi < |Tenures(run)| && k in recruits && k in recruits'
    requires StartedAt(run, lo, Tenures(run)[lo].rev, Tenures(run)[lo].start, c, recruits)
    requires StartedAt(run, hi, Tenures(run)[hi].rev, Tenures(run)[hi].start, c', recruits')
    ensures Ordered(Tenures(run)[lo], Tenures(run)[hi])
  {
    hide Froze, Valid, Shaped, WellFormed, LastRule, ComparePoolerPosition, PositionAt;
    var b := RecruitSnapshot(run, lo, c, recruits, k);
    var b' := RecruitSnapshot(run, hi, c', recruits', k);
    PromisesOrdered(run, k, b, b', Tenures(run)[lo].rev, Tenures(run)[hi].rev);
    TenureFacts(run, lo);
    TenureFacts(run, hi);
    if Term(Tenures(run)[lo]) == Term(Tenures(run)[hi]) { FreshRound(run, lo, hi, c'); }
  }

  /** Rounds of a compatible family overlap. */
  lemma FamilyOverlap(run: Run, lo: nat, hi: nat, c: nat, recruits: set<string>, c': nat, recruits': set<string>)
    requires Valid(run) && Familial(run) && 0 < lo < hi < |Tenures(run)|
    requires StartedAt(run, lo, Tenures(run)[lo].rev, Tenures(run)[lo].start, c, recruits)
    requires StartedAt(run, hi, Tenures(run)[hi].rev, Tenures(run)[hi].start, c', recruits')
    ensures Meet(recruits, recruits')
  {
    hide Valid, PositionAt, Frozen, Quorum, Meet, CanFinish, Snapshot, Held, GovernedEntry;
    var family :| Compatible(family) && Governed(run, family);
    var p := StartInFamily(run, family, lo, c, recruits);
    var q := StartInFamily(run, family, hi, c', recruits');
    assert PairMeets(p, q);
  }

  lemma DecisionIsUsed(run: Run, t: nat, wal: Wal)
    requires t < |Tenures(run)| && wal <= Tenures(run)[t].log && PolicyOf(PositionAt(wal).decision).Ok?
    ensures PositionAt(wal).decision.Some? && Used(run, PositionAt(wal).decision.value)
  {
    assert PolicyOf(None).Err?;
    hide PositionAt, PolicyOf;
    DecisionWasProposed(wal);
    var rule := PositionAt(wal).decision.value;
    var j :| 0 <= j < |wal| && wal[j] == Propose(rule);
    assert Tenures(run)[t].log[j] == wal[j];
  }

  lemma StartIsEffective(run: Run, u: nat, c: nat, recruits: set<string>)
    requires Setup(run) && 0 < u < |Tenures(run)|
    requires StartedAt(run, u, Tenures(run)[u].rev, Tenures(run)[u].start, c, recruits)
    ensures var d := PositionAt(Tenures(run)[u].start).decision;
            d.Some? && Used(run, d.value) && Effective(run, d.value, recruits)
  {
    hide Valid, PositionAt, Frozen, CanFinish, CanOpen, Snapshot, Held, PolicyOf, InForce, Orderly, Familial,
      Shaped;
    SetupValid(run);
    TenureFacts(run, u);
    DecisionIsUsed(run, u, Tenures(run)[u].start);
    SetupUpto(run, c + 1);
    assert Used(run, Tenures(run)[u].opening) && CanOpen(Tenures(run)[u].opening, recruits);
  }

  /** Rounds of interlocked rules overlap. */
  lemma InterlockedOverlap(run: Run, lo: nat, hi: nat, c: nat, recruits: set<string>, c': nat, recruits': set<string>)
    requires Setup(run) && Interlocked(run) && 0 < lo < hi < |Tenures(run)|
    requires StartedAt(run, lo, Tenures(run)[lo].rev, Tenures(run)[lo].start, c, recruits)
    requires StartedAt(run, hi, Tenures(run)[hi].rev, Tenures(run)[hi].start, c', recruits')
    ensures Meet(recruits, recruits')
  {
    hide Setup, StartedAt, PositionAt, Meet, Used, Effective, PolicyOf, InForce, FreezesProposalToo;
    StartIsEffective(run, lo, c, recruits);
    StartIsEffective(run, hi, c', recruits');
  }

  lemma StartInFamily(run: Run, family: set<PolicyWithCohort>, u: nat, c: nat, recruits: set<string>)
    returns (p: PolicyWithCohort)
    requires Valid(run) && Governed(run, family) && 0 < u < |Tenures(run)|
    requires StartedAt(run, u, Tenures(run)[u].rev, Tenures(run)[u].start, c, recruits)
    ensures p in family && Frozen(p, recruits)
  {
    hide Valid, PositionAt, Frozen, CanFinish, Snapshot, Held, PolicyOf, InForce;
    TenureFacts(run, u);
    p := InForce(PositionAt(Tenures(run)[u].start).decision);
    RuleInFamily(run, family, u, Tenures(run)[u].start);
  }

  lemma RuleInFamily(run: Run, family: set<PolicyWithCohort>, t: nat, wal: Wal)
    requires Governed(run, family) && t < |Tenures(run)| && wal <= Tenures(run)[t].log
    ensures PolicyOf(PositionAt(wal).decision).Ok? ==> InForce(PositionAt(wal).decision) in family
    ensures PolicyOf(PositionAt(wal).proposal).Ok? ==> InForce(PositionAt(wal).proposal) in family
  {
    hide PositionAt, InForce;
    DecisionWasProposed(wal);
    assert PolicyOf(None).Err?;
    hide PolicyOf;
    forall rule | PositionAt(wal).decision == Some(rule) || PositionAt(wal).proposal == Some(rule)
      ensures PolicyOf(Some(rule)).Ok? && InForce(Some(rule)) in family
    {
      var j :| 0 <= j < |wal| && wal[j] == Propose(rule);
      assert Tenures(run)[t].log[j] == wal[j];
      assert GovernedEntry(Tenures(run)[t].log[j], family);
    }
  }

  /** The policy in force at any point of a WAL belongs to the family. */
  lemma ExpectedInFamily(run: Run, family: set<PolicyWithCohort>, t: nat, p: Wal)
    requires Governed(run, family) && t < |Tenures(run)| && p <= Tenures(run)[t].log
    requires ExpectedPolicy(Some(PositionAt(p))).Ok?
    ensures ExpectedPolicy(Some(PositionAt(p))).value in family
  {
    hide PositionAt, SameCohort, CohortIsSubsetOf, PolicyOf, InForce;
    RuleInFamily(run, family, t, p);
  }

  lemma EarlierThan(run: Run, t: nat, c: nat, e: nat)
    requires Valid(run) && c < |run.states| && e < |run.states|
    requires |run.states[c].tenures| <= t < |run.states[e].tenures|
    ensures c < e
  {
    hide Valid, NoWeaker, ComparePoolerPosition;
    if e <= c { RunGrows(run, e, c); }
  }

  /** Election safety: no two tenures share a term, and what they transition from follows their terms. */
  lemma {:induction false} PairOrdered(run: Run, lo: nat, hi: nat, e: nat)
    requires Setup(run) && lo < hi < |Tenures(run)| && e < |run.states| && lo < |run.states[e].tenures|
    ensures Ordered(Tenures(run)[lo], Tenures(run)[hi])
    decreases |run.states|, hi, e, 1
  {
    hide Valid, StartedAt, Ordered, SoundLogs, ConfirmedRounds, Interlocked, Familial;
    assert Valid(run) by { SetupValid(run); }
    if lo == 0 {
      FirstIsLowest(run, hi);
    } else {
      var c', recruits' := Started(run, hi);
      var before := |run.states| - 2;
      if hi < |run.states[before].tenures| {
        SetupUpto(run, before);
        PairOrdered(Upto(run, before), lo, hi, before);
        SameOrder(run, before, lo, hi);
      } else {
        var c, recruits := Started(run, lo);
        if Familial(run) {
          FamilyOverlap(run, lo, hi, c, recruits, c', recruits');
          var k :| k in recruits && k in recruits';
          SharedRecruitOrders(run, lo, hi, k, c, recruits, c', recruits');
        } else if Interlocked(run) {
          InterlockedOverlap(run, lo, hi, c, recruits, c', recruits');
          var k :| k in recruits && k in recruits';
          SharedRecruitOrders(run, lo, hi, k, c, recruits, c', recruits');
        } else {
          NewestOrdered(run, lo, hi, e, c, recruits, c', recruits');
        }
      }
    }
  }

  lemma SameOrder(run: Run, i: nat, lo: nat, hi: nat)
    requires Setup(run) && i < |run.states| && lo < |run.states[i].tenures| && hi < |run.states[i].tenures|
    ensures hi < |Tenures(run)| && lo < |Tenures(run)|
    ensures Ordered(run.states[i].tenures[lo], run.states[i].tenures[hi]) <==>
      Ordered(Tenures(run)[lo], Tenures(run)[hi])
  {
    hide Setup, LastRule;
    SetupUpto(run, i);
  }

  lemma {:induction false} NewestOrdered(run: Run, lo: nat, hi: nat, e: nat,
                                         c: nat, recruits: set<string>, c': nat, recruits': set<string>)
    requires Setup(run) && SoundLogs(run) && ConfirmedRounds(run) && 0 < lo < hi < |Tenures(run)|
    requires e < |run.states| && lo < |run.states[e].tenures|
    requires StartedAt(run, lo, Tenures(run)[lo].rev, Tenures(run)[lo].start, c, recruits)
    requires StartedAt(run, hi, Tenures(run)[hi].rev, Tenures(run)[hi].start, c', recruits')
    ensures Ordered(Tenures(run)[lo], Tenures(run)[hi])
    decreases |run.states|, hi, e, 0
  {
    hide Valid, Orderly, SoundLogs, ConfirmedRounds, Familial, Snapshot, Held, Froze, PositionAt, LastRule,
      WellFormed, Shaped, SoundLog, ConfirmedBy, DecidedNumber, Anchor;
    assert Valid(run) by { SetupValid(run); }
    var x, y := Tenures(run)[lo], Tenures(run)[hi];
    var t, j := ConfirmedStart(run, lo, c, recruits);
    var t', j' := ConfirmedStart(run, hi, c', recruits');
    var a, b := run.states[c].tenures[t], run.states[c'].tenures[t'];
    EarlierThan(run, lo, c, e);
    AnchorIsAnchor(a, j, x.start);
    AnchorIsAnchor(b, j', y.start);
    TenureFacts(run, lo);
    TenureFacts(run, hi);
    AnchorTerm(run, c, t, j, lo);
    AnchorTerm(run, c', t', j', hi);
    if Term(x) <= Term(b) || Term(y) <= Term(a) {
      hide Setup, StartedAt;
    } else {
      SetupUpto(run, c');
      AnchorKept(Upto(run, c'), t', c', j', lo);
      AnchorKept(run, t, c, j, hi);
      SoundTenure(run, lo);
      SoundTenure(run, hi);
      if j <= j' {
        ConfirmedOverlap(a, j, x.start, recruits, b, j', y.start, recruits', x.log, y.log);
      } else {
        ConfirmedOverlap(b, j', y.start, recruits', a, j, x.start, recruits, y.log, x.log);
      }
      hide Setup, StartedAt;
      var k :| k in recruits && k in recruits';
      SharedRecruitOrders(run, lo, hi, k, c, recruits, c', recruits');
    }
  }

  lemma SoundTenure(run: Run, t: nat)
    requires Setup(run) && SoundLogs(run) && t < |Tenures(run)|
    ensures SoundLog(Tenures(run)[t].log) && WellFormed(Tenures(run)[t].start)
    ensures Tenures(run)[t].start <= Tenures(run)[t].log
  {
    hide Valid, SoundLog, WellFormed, Shaped, Orderly, Familial;
    SetupValid(run);
    TenureFacts(run, t);
    PrefixIsBehind(Tenures(run)[t].start, Tenures(run)[t].log);
  }

  /** An anchor's term is at most the term of the rule a tenure transitions from. */
  lemma AnchorTerm(run: Run, c: nat, t: nat, x: nat, u: nat)
    requires Valid(run) && c < |run.states| && t < |run.states[c].tenures| && 0 < u < |Tenures(run)|
    requires ConfirmedBy(run.states[c].tenures[t], x, Tenures(run)[u].start)
    ensures Term(run.states[c].tenures[t]) <= LastRule(Tenures(run)[u].start).term < Term(Tenures(run)[u])
    ensures Term(run.states[c].tenures[t]) <= DecidedNumber(Tenures(run)[u].start).term
    ensures PositionAt(run.states[c].tenures[t].log[..x]).proposal.Some?
    ensures WellFormed(Tenures(run)[u].start)
  {
    TenureFacts(run, u);
    EveryStateOk(run, c);
    var start := Tenures(run)[u].start;
    PrefixIsBehind(start, Tenures(run)[u].log);
    Numbering(start);
    assert TenureOk(run.states[c].tenures[t], Genesis(run), t == 0);
    AnchorProposal(run.states[c].tenures[t], x, Genesis(run), t == 0);
    hide Valid, PositionAt, WellFormed, Shaped, SameConfig;
  }

  // ---------------------------------------------------------------- durable history is never lost

  /** What a tenure decided of its own term is in the start of every tenure of a later term. */
  lemma {:induction false} AnchorKept(run: Run, t: nat, i: nat, x: nat, u: nat)
    requires Setup(run) && i < |run.states| && t < |run.states[i].tenures| && Anchor(run.states[i].tenures[t], x)
    requires 0 < u < |Tenures(run)| && Term(run.states[i].tenures[t]) < Term(Tenures(run)[u])
    ensures run.states[i].tenures[t].log[..x] <= Tenures(run)[u].start
    decreases |run.states|, u, i, 0
  {
    hide Valid, Orderly, Familial, PositionAt, LastRule, WellFormed, Shaped, Durable;
    assert Valid(run) by { SetupValid(run); }
    SetupUpto(run, i);
    var a := run.states[i].tenures[t].log[..x];
    TenureFacts(run, u);
    if CompareRuleNumbers(LastRule(a), LastRule(Genesis(run))) > 0 {
      var nodes, m := OwnDecisionAcked(run, t, i, x);
      Preservation(run, t, a, nodes, m, u);
    } else {
      AnchorOfGenesis(run, t, i, x);
    }
  }

  lemma AnchorOfGenesis(run: Run, t: nat, i: nat, x: nat)
    requires Valid(run) && i < |run.states| && t < |run.states[i].tenures| && Anchor(run.states[i].tenures[t], x)
    requires CompareRuleNumbers(LastRule(run.states[i].tenures[t].log[..x]), LastRule(Genesis(run))) <= 0
    ensures run.states[i].tenures[t].log[..x] <= Genesis(run)
  {
    hide Valid, PositionAt, LastRule, WellFormed, Shaped;
    EveryStateOk(run, i);
    var tenure := run.states[i].tenures[t];
    assert TenureOk(tenure, Genesis(run), t == 0);
    AnchorProposal(tenure, x, Genesis(run), t == 0);
    var a := tenure.log[..x];
    if |Genesis(run)| <= |a| {
      assert Genesis(run) <= a;
      InitialDecision(run);
      PrefixIsBehind(Genesis(run), a);
      Undecided(a, Genesis(run));
    }
  }

  lemma Undecided(a: Wal, b: Wal)
    requires WellFormed(a) && b <= a && PositionAt(a).proposal.Some? && DecidedNumber(b) == LastRule(b)
    ensures CompareRuleNumbers(LastRule(a), LastRule(b)) > 0
  {
    PrefixIsBehind(b, a);
    Numbering(a);
    Numbering(b);
    hide PositionAt, WellFormed;
  }

  /** The order of two tenures, one of which had started before step `d`. */
  lemma {:induction false} OrderedWith(run: Run, t: nat, u: nat, d: nat)
    requires Setup(run) && t < |Tenures(run)| && u < |Tenures(run)| && t != u
    requires d + 1 < |run.states| && t < |run.states[d].tenures|
    ensures Ordered(Tenures(run)[t], Tenures(run)[u])
    decreases |run.states|, u, d, 2
  {
    hide Valid, Orderly, Familial, Ordered;
    if t < u {
      PairOrdered(run, t, u, d);
    } else {
      SetupUpto(run, d);
      PairOrdered(Upto(run, d), u, t, d);
      SameOrder(run, d, u, t);
      OrderedIsSymmetric(Tenures(run)[t], Tenures(run)[u]);
    }
  }

  lemma {:induction false} EverythingOrdered(run: Run)
    requires Setup(run)
    ensures AllOrdered(run)
    decreases |run.states|, |Tenures(run)|, 0, 0
  {
    hide Valid, Orderly, Familial, Ordered;
    forall x, y | 0 <= x < y < |Tenures(run)| ensures Ordered(Tenures(run)[x], Tenures(run)[y]) {
      SetupValid(run);
      PairOrdered(run, x, y, |run.states| - 1);
    }
  }

  /** Leader completeness: every tenure of a later term starts from a WAL that contains `p`. */
  lemma {:induction false} Preservation(run: Run, t: nat, p: Wal, nodes: set<string>, m: nat, u: nat)
    requires Setup(run) && Durable(run, t, p, nodes, m) && 0 < u < |Tenures(run)|
    requires Term(Tenures(run)[t]) < Term(Tenures(run)[u])
    ensures p <= Tenures(run)[u].start
    decreases |run.states|, u, m, 3
  {
    hide Setup, Durable, Snapshot, Acked, Valid, StartedAt, Meet, ComparePoolerPosition, DecidedNumber;
    SetupValid(run);
    var c, recruits := Started(run, u);
    Reaches(run, t, p, nodes, m, u, c, recruits);
    if Meet(recruits, nodes) {
      SeenByRecruit(run, t, p, nodes, m, u, c, recruits);
    } else {
      DecidedAhead(Tenures(run)[u].start, p);
    }
    SeenIsKept(run, t, p, nodes, m, u);
  }

  lemma DecidedAhead(a: Wal, b: Wal)
    requires CompareRuleNumbers(DecidedNumber(a), DecidedNumber(b)) > 0
    ensures ComparePoolerPosition(At(a), At(b)) >= 0
  {
    hide PositionAt;
  }

  /** A recruit that acknowledged `p` held it when it was recruited, so the start is at least as advanced. */
  lemma {:induction false} SeenByRecruit(
    run: Run, t: nat, p: Wal, nodes: set<string>, m: nat, u: nat, c: nat, recruits: set<string>)
    requires Setup(run) && Durable(run, t, p, nodes, m) && 0 < u < |Tenures(run)|
    requires Term(Tenures(run)[t]) < Term(Tenures(run)[u])
    requires StartedAt(run, u, Tenures(run)[u].rev, Tenures(run)[u].start, c, recruits) && Meet(recruits, nodes)
    ensures ComparePoolerPosition(At(Tenures(run)[u].start), At(p)) >= 0
    decreases |run.states|, u, m, 2
  {
    hide Setup, Snapshot, Acked, Valid, StartedAt, ComparePoolerPosition, WriteQuorum, AckedBy, PositionAt,
      LastRule;
    SetupValid(run);
    var k :| k in recruits && k in nodes;
    var b := RecruitSnapshot(run, u, c, recruits, k);
    var a := AcknowledgedWhen(run, t, p, nodes, m, k);
    if a > b { AcknowledgedBeforePromise(run, t, p, nodes, m, u, k, a, b); }
    SeenAcknowledgement(run, t, p, k, if a <= b then a else b, b, u);
  }

  lemma SeenAcknowledgement(run: Run, t: nat, p: Wal, k: string, a: nat, b: nat, u: nat)
    requires Valid(run) && Acked(run, t, p, k, a) && a <= b < |run.states|
    requires u < |Tenures(run)| && Snapshot(run, Tenures(run)[u].rev, Tenures(run)[u].start, k, b)
    ensures ComparePoolerPosition(At(Tenures(run)[u].start), At(p)) >= 0
  {
    EveryStateOk(run, a);
    RunGrows(run, a, b);
    hide Valid, ComparePoolerPosition, PositionAt, LastRule, NoWeaker, WellFormed, Shaped;
    var s := run.states[a];
    var wal := s.nodes[k].wal;
    assert NodeOk(k, s.nodes[k], s, Genesis(run));
    assert TenureOk(s.tenures[t], Genesis(run), t == 0);
    PrefixIsBehind(wal, s.tenures[t].log);
    PrefixIsBehind(p, wal);
    PoolerCompareTransitive(At(run.states[b].nodes[k].wal), At(wal), At(p));
    PoolerCompareTransitive(At(Tenures(run)[u].start), At(run.states[b].nodes[k].wal), At(p));
  }

  /** A decision of an earlier term is never above the rule a later tenure transitions from. */
  lemma {:induction false} OldDecisionsAreKnown(run: Run, t: nat, i: nat, wal: Wal, u: nat)
    requires Setup(run) && i < |run.states| && t < |run.states[i].tenures|
    requires 0 < u < |Tenures(run)| && Term(run.states[i].tenures[t]) < Term(Tenures(run)[u])
    requires wal <= run.states[i].tenures[t].log
    requires DecidedNumber(wal).term == Term(run.states[i].tenures[t]) && !IsUnset(DecidedNumber(wal))
    ensures CompareRuleNumbers(DecidedNumber(wal), LastRule(Tenures(run)[u].start)) <= 0
    decreases |run.states|, u, i, 1
  {
    hide Setup, Valid, PositionAt, LastRule, WellFormed, Shaped, DecidedNumber;
    assert Valid(run) by { SetupValid(run); }
    EveryStateOk(run, i);
    var tenure := run.states[i].tenures[t];
    assert TenureOk(tenure, Genesis(run), t == 0);
    PrefixIsBehind(wal, tenure.log);
    var x := DecideEntry(wal);
    assert wal[..x] == tenure.log[..x] && tenure.log[x] == wal[x];
    AnchorKept(run, t, i, x, u);
    TenureFacts(run, u);
    PrefixIsBehind(Tenures(run)[u].start, Tenures(run)[u].log);
    PrefixIsBehind(wal[..x], Tenures(run)[u].start);
  }

  /** A node that promised a later term acknowledges nothing new of an earlier one: what it acknowledged at all,
      it held when it promised. */
  lemma {:induction false} AcknowledgedBeforePromise(
    run: Run, t: nat, p: Wal, nodes: set<string>, m: nat, u: nat, k: string, a: nat, b: nat)
    requires Setup(run) && Durable(run, t, p, nodes, m) && 0 < u < |Tenures(run)|
    requires Term(Tenures(run)[t]) < Term(Tenures(run)[u])
    requires b < a <= m && Acked(run, t, p, k, a)
    requires Snapshot(run, Tenures(run)[u].rev, Tenures(run)[u].start, k, b)
    ensures Acked(run, t, p, k, b)
    decreases |run.states|, u, m, 1
  {
    hide Setup, Valid, ComparePoolerPosition, PositionAt, LastRule, NoWeaker, WellFormed, Shaped, WriteQuorum,
      AckedBy, Delivered, IsRuleRevoked, DecidedNumber;
    assert Valid(run) by { SetupValid(run); }
    if !Acked(run, t, p, k, b) {
      Lengths(run);
      var d := AdoptedAt(run, t, p, k, b, a);
      ReplicateGuard(run, d);
      hide Acked;
      var z, log := run.actions[d].delivered, run.states[d].tenures[t].log;
      assert !IsRuleRevoked(Some(z), Some(Tenures(run)[u].rev)) by { StillForbidden(run, k, b, d, z); }
      OrderedWith(run, t, u, d);
      SetupUpto(run, d);
      DeliveredIsOld(run, t, d, z, u);
      TenureFacts(run, u);
      NotForbidden(z, Tenures(run)[u].rev, Term(Tenures(run)[t]));
      var j :| 0 <= j <= |log| && DecidedNumber(log[..j]).term == Term(Tenures(run)[t])
               && Numbers(Some(z)).decision == DecidedNumber(log[..j]);
      OldDecisionsAreKnown(run, t, d, log[..j], u);
    }
  }

  /** Whatever a tenure tells its followers stays at its own term; past the rule a later round promised it can
      only be something the tenure decided itself. */
  lemma DeliveredIsOld(run: Run, t: nat, d: nat, z: RulePosition, u: nat)
    requires Valid(run) && d < |run.states| && t < |run.states[d].tenures| && 0 < u < |Tenures(run)|
    requires t < |Tenures(run)| && Term(Tenures(run)[t]) < Term(Tenures(run)[u])
    requires Ordered(Tenures(run)[t], Tenures(run)[u]) && Delivered(run.states[d].tenures[t], t == 0, z)
    ensures Numbers(Some(z)).decision.term <= Term(Tenures(run)[t])
    ensures Numbers(Some(z)).proposal.term <= Term(Tenures(run)[t])
    ensures !IsUnset(OutgoingOf(Some(Tenures(run)[u].rev)))
    ensures CompareRuleNumbers(Numbers(Some(z)).decision, LastRule(Tenures(run)[u].start)) > 0 ==>
              exists j :: 0 <= j <= |run.states[d].tenures[t].log|
                && DecidedNumber(run.states[d].tenures[t].log[..j]).term == Term(Tenures(run)[t])
                && Numbers(Some(z)).decision == DecidedNumber(run.states[d].tenures[t].log[..j])
  {
    hide PositionAt, WellFormed, LastRule, Shaped;
    EveryStateOk(run, d);
    var tenure := run.states[d].tenures[t];
    assert TenureOk(tenure, Genesis(run), t == 0);
    RunGrows(run, d, |run.states| - 1);
    assert tenure.rev == Tenures(run)[t].rev && tenure.start == Tenures(run)[t].start;
    hide NoWeaker, ComparePoolerPosition, Valid;
    TenureFacts(run, u);
    AboveGenesis(run, Tenures(run)[u].start, Tenures(run)[u].log);
    if !(t != 0 && Numbers(Some(z)) == NumberPosition(OutgoingOf(Some(tenure.rev)), tenure.opening.number)) {
      var j :| 0 <= j <= |tenure.log| && PositionAt(tenure.log[..j]) == z
               && DecidedNumber(tenure.log[..j]).term == Term(tenure);
      LastTermAtMost(tenure, Genesis(run), t == 0, tenure.log[..j]);
      Numbering(tenure.log[..j]);
      ProposalAtMostLast(tenure.log[..j]);
    }
  }

  // ---------------------------------------------------------------- recruits meet the quorums they must see

  /** A later round's recruits include a node that acknowledged `p`, unless its start has decided past it. */
  lemma {:induction false} Reaches(
    run: Run, t: nat, p: Wal, nodes: set<string>, m: nat, u: nat, c: nat, recruits: set<string>)
    requires Setup(run) && Durable(run, t, p, nodes, m) && 0 < u < |Tenures(run)|
    requires Term(Tenures(run)[t]) < Term(Tenures(run)[u])
    requires StartedAt(run, u, Tenures(run)[u].rev, Tenures(run)[u].start, c, recruits)
    ensures Meet(recruits, nodes) || CompareRuleNumbers(DecidedNumber(Tenures(run)[u].start), DecidedNumber(p)) > 0
    decreases |run.states|, u, m, 2
  {
    hide Valid, Orderly, Familial, StartedAt, WriteQuorum, AckedBy, Acked, PositionAt, LastRule, WellFormed, Shaped,
      DecidedNumber, Meet;
    assert Valid(run) by { SetupValid(run); }
    if Familial(run) {
      FamilyReaches(run, t, p, nodes, m, u, c, recruits);
    } else {
      var k := QuorumHasMember(p, nodes);
      var a := AcknowledgedWhen(run, t, p, nodes, m, k);
      AcknowledgedIsWritten(run, t, p, k, a);
      SetupUpto(run, a);
      if DecidedNumber(p).term == Term(Tenures(run)[t]) {
        OwnReaches(run, t, p, nodes, m, u, c, recruits, a);
      } else {
        if t == 0 { FirstDecides(run, p, nodes); }
        OpeningReaches(run, t, p, nodes, m, u, c, recruits, a);
      }
    }
  }

  lemma FamilyReaches(run: Run, t: nat, p: Wal, nodes: set<string>, m: nat, u: nat, c: nat, recruits: set<string>)
    requires Valid(run) && Familial(run) && Durable(run, t, p, nodes, m) && 0 < u < |Tenures(run)|
    requires StartedAt(run, u, Tenures(run)[u].rev, Tenures(run)[u].start, c, recruits)
    ensures Meet(recruits, nodes)
  {
    hide Valid, PositionAt, Frozen, Quorum, Meet, CanFinish, Snapshot, Held, GovernedEntry, ExpectedPolicy, AckedBy,
      StartedAt, LastRule;
    var family :| Compatible(family) && Governed(run, family);
    var q := StartInFamily(run, family, u, c, recruits);
    ExpectedInFamily(run, family, t, p);
    assert PairMeets(q, ExpectedPolicy(Some(PositionAt(p))).value);
  }

  /** The initial leadership's durable history rests on a decision of its own. */
  lemma FirstDecides(run: Run, p: Wal, nodes: set<string>)
    requires Valid(run) && |Tenures(run)| > 0 && p <= Tenures(run)[0].log && WriteQuorum(p, nodes)
    requires LastRule(p).term == Term(Tenures(run)[0])
    ensures DecidedNumber(p).term == Term(Tenures(run)[0])
  {
    TenureFacts(run, 0);
    GenesisShape(run);
    PrefixIsBehind(p, Tenures(run)[0].log);
    if |p| >= 2 {
      hide Valid, WriteQuorum, PositionAt, LastRule, WellFormed;
      GenesisDecided(run, p);
    }
  }

  /** Durable history that rests on a decision the tenure made itself. */
  lemma {:induction false} OwnReaches(
    run: Run, t: nat, p: Wal, nodes: set<string>, m: nat, u: nat, c: nat, recruits: set<string>, a: nat)
    requires Setup(run) && Orderly(run) && Durable(run, t, p, nodes, m) && 0 < u < |Tenures(run)|
    requires Term(Tenures(run)[t]) < Term(Tenures(run)[u])
    requires StartedAt(run, u, Tenures(run)[u].rev, Tenures(run)[u].start, c, recruits)
    requires a <= m && a < |run.states| && t < |run.states[a].tenures| && p <= run.states[a].tenures[t].log
    requires DecidedNumber(p).term == Term(Tenures(run)[t])
    ensures Meet(recruits, nodes) || CompareRuleNumbers(DecidedNumber(Tenures(run)[u].start), DecidedNumber(p)) > 0
    decreases |run.states|, u, m, 1
  {
    hide Valid, SoundLogs, ConfirmedRounds, Interlocked, Familial, WriteQuorum, AckedBy, PositionAt, LastRule,
      WellFormed, Shaped, Snapshot, Held, DecidedNumber, Meet, SoundLog, Froze;
    assert Valid(run) by { SetupValid(run); }
    var start, log := Tenures(run)[u].start, Tenures(run)[t].log;
    SoundTenure(run, t);
    SoundTenure(run, u);
    TenureFacts(run, t);
    SetupUpto(run, a);
    PrefixIsBehind(p, log);
    DecidedIsSet(run, t, p, nodes);
    var x := DecideEntry(p);
    var tenure := run.states[a].tenures[t];
    assert p[..x] == tenure.log[..x] == log[..x] && p[x] == tenure.log[x] == log[x];
    AnchorKept(run, t, a, x, u);
    hide Setup, StartedAt;
    AnchorProposal(Tenures(run)[t], x, Genesis(run), t == 0);
    AnchorMeets(log, p, x, nodes, Tenures(run)[u].log, start, recruits);
  }

  lemma DecidedIsSet(run: Run, t: nat, p: Wal, nodes: set<string>)
    requires Valid(run) && t < |Tenures(run)| && p <= Tenures(run)[t].log && WellFormed(p) && WriteQuorum(p, nodes)
    ensures !IsUnset(DecidedNumber(p))
  {
    hide Valid, WellFormed, Shaped, PositionAt;
    TenureFacts(run, t);
    GenesisShape(run);
    NothingDecided(Tenures(run)[0].opening, p);
    if |p| >= 2 {
      hide WriteQuorum;
      assert Genesis(run) <= p;
      PrefixIsBehind(Genesis(run), p);
      GenesisRule(run);
      InitialDecision(run);
    }
  }

  lemma NothingDecided(rule: ShardRule, p: Wal)
    ensures |p| < 2 && p <= [Propose(rule), Decide] ==> PolicyOf(PositionAt(p).decision).Err?
  {
    if |p| == 1 { assert p[..0] == []; }
  }

  /** A start that contains the proposal `p` decided: it has decided past it, decided it, or holds it undecided. */
  lemma AnchorMeets(log: Wal, p: Wal, x: nat, nodes: set<string>, log': Wal, start: Wal, recruits: set<string>)
    requires SoundLog(log) && p <= log && WriteQuorum(p, nodes) && x < |p| && p[x].Decide?
    requires LastRule(p[..x]) == DecidedNumber(p) && PositionAt(p[..x]).proposal == PositionAt(p).decision
    requires PositionAt(p[..x]).proposal.Some?
    requires SoundLog(log') && start <= log' && WellFormed(start) && p[..x] <= start
    requires Froze(PositionAt(start), recruits)
    ensures Meet(recruits, nodes) || CompareRuleNumbers(DecidedNumber(start), DecidedNumber(p)) > 0
  {
    hide PositionAt, WriteQuorum, LastRule, WellFormed, DecidedNumber, Meet, Quorum, Frozen, CanFinish, Finishing,
      PolicyOf, InForce, Keys;
    WriteQuorumOfDecision(log, p, nodes);
    var a := p[..x];
    var _ := AfterProposal(a, start);
    if CompareRuleNumbers(DecidedNumber(start), LastRule(a)) == 0 {
      FrozenMeetsQuorum(InForce(PositionAt(start).decision), recruits, nodes);
    } else if CompareRuleNumbers(DecidedNumber(start), LastRule(a)) < 0 {
      FinishersOf(log', start, recruits);
      assert log[x] == p[x] && log[..x] == a;
      FrozenTooMeets(a, recruits, nodes);
    }
  }

  lemma FrozenTooMeets(a: Wal, recruits: set<string>, nodes: set<string>)
    requires FreezesAt(PositionAt(a)) && PolicyOf(PositionAt(a).decision).Ok? && PolicyOf(PositionAt(a).proposal).Ok?
    requires Finishing(InForce(PositionAt(a).decision), recruits) && Quorum(InForce(PositionAt(a).proposal), nodes)
    ensures Meet(recruits, nodes)
  {
    hide PositionAt, Finishing, Quorum, Meet, PolicyOf, InForce;
  }

  // ---------------------------------------------------------------- when only the opening is written

  /** Durable history that ends at the tenure's opening rule, on the rule it transitions from. */
  lemma {:induction false} OpeningReaches(
    run: Run, t: nat, p: Wal, nodes: set<string>, m: nat, u: nat, c: nat, recruits: set<string>, a: nat)
    requires Setup(run) && Orderly(run) && Durable(run, t, p, nodes, m) && 0 < u < |Tenures(run)| && t > 0
    requires Term(Tenures(run)[t]) < Term(Tenures(run)[u])
    requires StartedAt(run, u, Tenures(run)[u].rev, Tenures(run)[u].start, c, recruits)
    requires 0 < a <= m && a < |run.states| && t < |run.states[a - 1].tenures| && p <= run.states[a - 1].tenures[t].log
    requires DecidedNumber(p).term != Term(Tenures(run)[t])
    ensures Meet(recruits, nodes) || CompareRuleNumbers(DecidedNumber(Tenures(run)[u].start), DecidedNumber(p)) > 0
    decreases |run.states|, u, m, 1
  {
    hide Valid, SoundLogs, ConfirmedRounds, Interlocked, Familial, WriteQuorum, AckedBy, PositionAt, LastRule,
      WellFormed, Shaped, Snapshot, Held, DecidedNumber, Meet, SoundLog, Froze;
    assert Valid(run) by { SetupValid(run); }
    var x, y := Tenures(run)[t], Tenures(run)[u];
    OrderedWith(run, t, u, a - 1);
    TenureFacts(run, t);
    TenureFacts(run, u);
    OwnDecision(x, Genesis(run), p);
    OwnIsPastStart(x, Genesis(run), p);
    SoundTenure(run, t);
    SoundTenure(run, u);
    PrefixIsBehind(p, x.log);
    Numbering(y.start);
    WrittenBefore(run, t, p, a - 1);
    DecidedIsSet(run, t, p, nodes);
    var d, o := DecidedNumber(y.start), DecidedNumber(p);
    if CompareRuleNumbers(d, o) == 0 {
      SameDecisionMeets(run, t, p, nodes, u, c, recruits);
    } else if CompareRuleNumbers(d, o) < 0 && LastRule(y.start) == o {
      SameProposalMeets(run, t, p, nodes, u, c, recruits);
    } else if CompareRuleNumbers(d, o) < 0 {
      ForkMeets(run, t, p, nodes, m, u, c, recruits, a);
    }
  }

  /** Where a WAL of this run up to the step before last stands in a log of that time. */
  lemma StartBefore(run: Run, u: nat) returns (v: nat)
    requires Valid(run) && 0 < u < |Tenures(run)|
    ensures |run.states| >= 2 && v < u && v < |run.states[|run.states| - 2].tenures|
    ensures Tenures(run)[u].start <= run.states[|run.states| - 2].tenures[v].log
    ensures u <= |run.states[|run.states| - 2].tenures|
  {
    hide Snapshot, PositionAt, Froze, Valid, NoWeaker, ComparePoolerPosition, TenureOk;
    var c, recruits := Started(run, u);
    var start := Tenures(run)[u].start;
    var k, b: nat :| b <= c && Held(run, start, k, b);
    hide StartedAt;
    v := HeldBy(run, start, k, b);
    RunGrows(run, b, c);
    RunGrows(run, c, |run.states| - 2);
  }

  lemma HeldBy(run: Run, wal: Wal, k: string, b: nat) returns (v: nat)
    requires Valid(run) && Held(run, wal, k, b)
    ensures v < |run.states[b].tenures| && wal <= run.states[b].tenures[v].log
  {
    hide Valid, TenureOk;
    EveryStateOk(run, b);
    v := run.states[b].nodes[k].source;
    assert NodeOk(k, run.states[b].nodes[k], run.states[b], Genesis(run));
  }

  /** Two WALs of a run that hold one rule number hold one rule, after one history. */
  lemma {:induction false} OneRuleOneHistory(run: Run, t: nat, p: Wal, u: nat, rule: ShardRule, rule': ShardRule)
    returns (j: nat)
    requires Setup(run) && 0 < u < |Tenures(run)| && |run.states| >= 2
    requires t < |run.states[|run.states| - 2].tenures| && p <= run.states[|run.states| - 2].tenures[t].log
    requires exists j :: 0 <= j < |p| && p[j] == Propose(rule)
    requires exists j :: 0 <= j < |Tenures(run)[u].start| && Tenures(run)[u].start[j] == Propose(rule')
    requires rule.number == rule'.number
    ensures rule == rule' && j < |p| && p[j] == Propose(rule) && p[..j + 1] <= Tenures(run)[u].start
    decreases |run.states|, u, 0, 0
  {
    hide Valid, Orderly, Familial, AllOrdered;
    assert Valid(run) by { SetupValid(run); }
    var i := |run.states| - 2;
    var v := StartBefore(run, u);
    SetupUpto(run, i);
    SetupValid(Upto(run, i));
    EverythingOrdered(Upto(run, i));
    var start := Tenures(run)[u].start;
    var j0 :| 0 <= j0 < |p| && p[j0] == Propose(rule);
    var j1 :| 0 <= j1 < |start| && start[j1] == Propose(rule');
    var log, log' := run.states[i].tenures[t].log, run.states[i].tenures[v].log;
    assert log[j0] == p[j0] && log'[j1] == start[j1];
    SameRuleSameHistory(Upto(run, i), t, j0, v, j1);
    j := j0;
    assert p[..j + 1] == log[..j + 1] == log'[..j + 1] == start[..j + 1];
    assert p[..j + 1][j] == start[..j + 1][j];
  }

  lemma WrittenBefore(run: Run, t: nat, p: Wal, i: nat)
    requires Valid(run) && i + 1 < |run.states| && t < |run.states[i].tenures| && p <= run.states[i].tenures[t].log
    ensures t < |run.states[|run.states| - 2].tenures| && p <= run.states[|run.states| - 2].tenures[t].log
  {
    hide Valid, NoWeaker, ComparePoolerPosition;
    RunGrows(run, i, |run.states| - 2);
  }

  lemma DecisionRule(wal: Wal)
    requires !IsUnset(DecidedNumber(wal))
    ensures PositionAt(wal).decision.Some?
    ensures PositionAt(wal).decision.value.number == DecidedNumber(wal)
    ensures exists j :: 0 <= j < |wal| && wal[j] == Propose(PositionAt(wal).decision.value)
  {
    DecisionWasProposed(wal);
    hide PositionAt;
  }

  /** The round found the very decision `p` rests on. */
  lemma {:induction false} SameDecisionMeets(
    run: Run, t: nat, p: Wal, nodes: set<string>, u: nat, c: nat, recruits: set<string>)
    requires Setup(run) && Orderly(run) && 0 < u < |Tenures(run)| && |run.states| >= 2
    requires t < |run.states[|run.states| - 2].tenures| && p <= run.states[|run.states| - 2].tenures[t].log
    requires t < |Tenures(run)| && p <= Tenures(run)[t].log && SoundLog(Tenures(run)[t].log) && WriteQuorum(p, nodes)
    requires StartedAt(run, u, Tenures(run)[u].rev, Tenures(run)[u].start, c, recruits)
    requires DecidedNumber(Tenures(run)[u].start) == DecidedNumber(p) && !IsUnset(DecidedNumber(p))
    ensures Meet(recruits, nodes)
    decreases |run.states|, u, 0, 1
  {
    hide Valid, Orderly, Familial, WriteQuorum, PositionAt, Snapshot, Held, DecidedNumber, Meet, SoundLog, Quorum,
      Frozen, CanFinish, PolicyOf, InForce;
    var start := Tenures(run)[u].start;
    DecisionRule(p);
    DecisionRule(start);
    var _ := OneRuleOneHistory(run, t, p, u, PositionAt(p).decision.value, PositionAt(start).decision.value);
    hide Setup;
    WriteQuorumOfDecision(Tenures(run)[t].log, p, nodes);
    FrozenMeetsQuorum(InForce(PositionAt(start).decision), recruits, nodes);
  }

  lemma LastRuleIsProposal(wal: Wal)
    requires WellFormed(wal) && CompareRuleNumbers(DecidedNumber(wal), LastRule(wal)) < 0
    ensures PositionAt(wal).proposal.Some? && PositionAt(wal).proposal.value.number == LastRule(wal)
    ensures exists j :: 0 <= j < |wal| && wal[j] == Propose(PositionAt(wal).proposal.value)
  {
    DecisionWasProposed(wal);
    Numbering(wal);
    hide PositionAt, WellFormed;
  }

  lemma ProposedHere(log: Wal, p: Wal, j: nat)
    requires WellFormed(log) && p <= log && j < |p| && p[j].Propose?
    ensures WellFormed(p[..j + 1]) && PositionAt(p[..j + 1]).proposal == Some(p[j].rule)
    ensures LastRule(p[..j + 1]) == p[j].rule.number
  {
    PrefixIsBehind(p, log);
    PrefixIsBehind(p[..j + 1], p);
    LastIsProposal(p, j);
    hide PositionAt, WellFormed;
  }

  /** The round found undecided the very rule `p` rests on. */
  lemma {:induction false} SameProposalMeets(
    run: Run, t: nat, p: Wal, nodes: set<string>, u: nat, c: nat, recruits: set<string>)
    requires Setup(run) && Orderly(run) && 0 < u < |Tenures(run)| && |run.states| >= 2
    requires t < |run.states[|run.states| - 2].tenures| && p <= run.states[|run.states| - 2].tenures[t].log
    requires t < |Tenures(run)| && p <= Tenures(run)[t].log && SoundLog(Tenures(run)[t].log) && WriteQuorum(p, nodes)
    requires WellFormed(Tenures(run)[t].log)
    requires StartedAt(run, u, Tenures(run)[u].rev, Tenures(run)[u].start, c, recruits)
    requires CompareRuleNumbers(DecidedNumber(Tenures(run)[u].start), DecidedNumber(p)) < 0
    requires LastRule(Tenures(run)[u].start) == DecidedNumber(p) && !IsUnset(DecidedNumber(p))
    ensures Meet(recruits, nodes)
    decreases |run.states|, u, 0, 1
  {
    hide Valid, SoundLogs, ConfirmedRounds, Interlocked, Familial, WriteQuorum, PositionAt, Snapshot, Held,
      DecidedNumber, Meet, SoundLog, Quorum, Froze, LastRule, WellFormed;
    var start, log := Tenures(run)[u].start, Tenures(run)[t].log;
    SoundTenure(run, u);
    DecisionRule(p);
    LastRuleIsProposal(start);
    var j := OneRuleOneHistory(run, t, p, u, PositionAt(p).decision.value, PositionAt(start).proposal.value);
    hide Setup;
    ProposedHere(log, p, j);
    PrefixIsBehind(p, log);
    var x := AfterProposal(p[..j + 1], p);
    DecidedProposalMeets(log, p, x - 1, p[..j + 1], nodes, Tenures(run)[u].log, start, recruits);
  }

  lemma DecidedProposalMeets(log: Wal, p: Wal, x: nat, a: Wal, nodes: set<string>, log': Wal, start: Wal,
                             recruits: set<string>)
    requires SoundLog(log) && p <= log && WriteQuorum(p, nodes) && x < |p| && p[x].Decide?
    requires PositionAt(p[..x]) == PositionAt(a) && PositionAt(p).decision == PositionAt(a).proposal
    requires PositionAt(a).proposal.Some? && a <= start
    requires SoundLog(log') && start <= log' && WellFormed(start) && Froze(PositionAt(start), recruits)
    requires CompareRuleNumbers(DecidedNumber(start), LastRule(a)) < 0
    ensures Meet(recruits, nodes)
  {
    hide PositionAt, WriteQuorum, LastRule, WellFormed, DecidedNumber, Meet, Quorum, Frozen, CanFinish, Finishing,
      PolicyOf, InForce, Keys;
    WriteQuorumOfDecision(log, p, nodes);
    var _ := AfterProposal(a, start);
    FinishersOf(log', start, recruits);
    assert log[x] == p[x] && log[..x] == p[..x];
    FrozenTooMeets(a, recruits, nodes);
  }

  /** The round found another rule, proposed on a decision `p` has left behind. */
  lemma {:induction false} ForkMeets(
    run: Run, t: nat, p: Wal, nodes: set<string>, m: nat, u: nat, c: nat, recruits: set<string>, a: nat)
    requires Setup(run) && Orderly(run) && Durable(run, t, p, nodes, m) && 0 < u < |Tenures(run)| && t > 0
    requires Term(Tenures(run)[t]) < Term(Tenures(run)[u])
    requires StartedAt(run, u, Tenures(run)[u].rev, Tenures(run)[u].start, c, recruits)
    requires 0 < a <= m && a < |run.states| && t < |run.states[a - 1].tenures| && p <= run.states[a - 1].tenures[t].log
    requires DecidedNumber(p) == LastRule(Tenures(run)[t].start)
    requires CompareRuleNumbers(DecidedNumber(Tenures(run)[u].start), DecidedNumber(p)) < 0
    requires CompareRuleNumbers(LastRule(Tenures(run)[u].start), DecidedNumber(p)) > 0
    ensures Meet(recruits, nodes)
    decreases |run.states|, u, m, 0
  {
    hide Valid, SoundLogs, ConfirmedRounds, Interlocked, Familial, WriteQuorum, AckedBy, PositionAt, LastRule,
      WellFormed, Shaped, Snapshot, Held, DecidedNumber, Meet, SoundLog, Froze, SameConfig, Anchor;
    assert Valid(run) by { SetupValid(run); }
    var x, y := Tenures(run)[t], Tenures(run)[u];
    SoundTenure(run, t);
    SoundTenure(run, u);
    TenureFacts(run, t);
    LastRuleIsProposal(y.start);
    if Interlocked(run) {
      InterlockedForkMeets(run, t, p, nodes, u, c, recruits);
    } else {
      var c', recruits' := Started(run, t);
      EarlierThan(run, t, c', a - 1);
      ForkCountsAlike(run, t, u, c, recruits, c', recruits', a - 1);
      hide Setup, StartedAt;
      OwnIsPastStart(x, Genesis(run), p);
      AlikeMeets(x.log, p, x.start, nodes, y.log, y.start, recruits);
    }
  }

  /** Rules that freeze each other: the recruits see every quorum of the rule `p` rests on. */
  lemma InterlockedForkMeets(run: Run, t: nat, p: Wal, nodes: set<string>, u: nat, c: nat, recruits: set<string>)
    requires Setup(run) && Interlocked(run) && t < |Tenures(run)| && 0 < u < |Tenures(run)|
    requires p <= Tenures(run)[t].log && SoundLog(Tenures(run)[t].log) && WriteQuorum(p, nodes)
    requires StartedAt(run, u, Tenures(run)[u].rev, Tenures(run)[u].start, c, recruits)
    requires SoundLog(Tenures(run)[u].log) && Tenures(run)[u].start <= Tenures(run)[u].log
    requires WellFormed(Tenures(run)[u].start) && PositionAt(Tenures(run)[u].start).proposal.Some?
    ensures Meet(recruits, nodes)
  {
    hide Setup, PositionAt, WriteQuorum, SoundLog, WellFormed, Meet, Quorum, Finishing, Frozen, CanFinish, CanOpen,
      PolicyOf, InForce, Used, Effective, Snapshot, Held, LastRule;
    var start := Tenures(run)[u].start;
    WriteQuorumOfDecision(Tenures(run)[t].log, p, nodes);
    FinishersOf(Tenures(run)[u].log, start, recruits);
    DecisionIsUsed(run, t, p);
    DecisionIsUsed(run, u, start);
    var d, e := PositionAt(start).decision, PositionAt(p).decision;
    assert FreezesProposalToo(InForce(Some(d.value)), InForce(Some(e.value)));
    assert Some(d.value) == d && Some(e.value) == e;
  }

  /** On confirmed configurations both starts of a fork count alike. */
  lemma {:induction false} ForkCountsAlike(
    run: Run, t: nat, u: nat, c: nat, recruits: set<string>, c': nat, recruits': set<string>, e: nat)
    requires Setup(run) && ConfirmedRounds(run) && 0 < u < |Tenures(run)| && 0 < t < |Tenures(run)|
    requires Term(Tenures(run)[t]) < Term(Tenures(run)[u])
    requires StartedAt(run, u, Tenures(run)[u].rev, Tenures(run)[u].start, c, recruits)
    requires StartedAt(run, t, Tenures(run)[t].rev, Tenures(run)[t].start, c', recruits')
    requires c' < e && e + 1 < |run.states| && t < |run.states[e].tenures|
    requires var x, y := Tenures(run)[t].start, Tenures(run)[u].start;
             CompareRuleNumbers(DecidedNumber(y), LastRule(x)) < 0 < CompareRuleNumbers(LastRule(y), LastRule(x))
    ensures SameConfig(PositionAt(Tenures(run)[t].start).decision, PositionAt(Tenures(run)[u].start).decision)
    decreases |run.states|, u, e, 0
  {
    hide Valid, Orderly, ConfirmedRounds, Familial, PositionAt, LastRule, WellFormed, Shaped, Snapshot, Held,
      DecidedNumber, Froze, CanOpen, ConfirmedBy, SameConfig, Anchor;
    assert Valid(run) by { SetupValid(run); }
    var x, y := Tenures(run)[t], Tenures(run)[u];
    var s, i := ConfirmedStart(run, t, c', recruits');
    var s', i' := ConfirmedStart(run, u, c, recruits);
    var b, b' := run.states[c'].tenures[s], run.states[c].tenures[s'];
    TenureFacts(run, t);
    TenureFacts(run, u);
    AnchorTerm(run, c', s, i, t);
    AnchorTerm(run, c, s', i', u);
    AnchorIsAnchor(b, i, x.start);
    AnchorIsAnchor(b', i', y.start);
    AnchorKept(run, s, c', i, u);
    EarlierAnchorKept(run, c, s', i', t, e);
    ForksCountAlike(b, i, x.start, b', i', y.start);
  }

  lemma AnchorIsAnchor(t: Tenure, x: nat, wal: Wal)
    requires ConfirmedBy(t, x, wal)
    ensures Anchor(t, x)
  {
    hide PositionAt, SameConfig;
  }

  lemma {:induction false} EarlierAnchorKept(run: Run, c: nat, s: nat, x: nat, t: nat, e: nat)
    requires Setup(run) && c + 1 < |run.states| && e + 1 < |run.states| && s < |run.states[c].tenures|
    requires 0 < t < |run.states[e].tenures| && Anchor(run.states[c].tenures[s], x)
    requires t < |Tenures(run)| && Term(run.states[c].tenures[s]) < Term(Tenures(run)[t])
    ensures run.states[c].tenures[s].log[..x] <= Tenures(run)[t].start
    decreases |run.states|, 0, 0, 0
  {
    hide Valid, Orderly, Familial, Anchor;
    assert Valid(run) by { SetupValid(run); }
    var i := if c < e then e else c;
    assert t < |run.states[i].tenures| by { MoreTenures(run, e, i); }
    SetupUpto(run, i);
    AnchorKept(Upto(run, i), s, c, x, t);
  }

  lemma MoreTenures(run: Run, e: nat, i: nat)
    requires Valid(run) && e <= i < |run.states|
    ensures |run.states[e].tenures| <= |run.states[i].tenures|
  {
    hide Valid, NoWeaker, ComparePoolerPosition;
    RunGrows(run, e, i);
  }

  /** `p` ends at the opening of a tenure whose start counts like the round's. */
  lemma AlikeMeets(log: Wal, p: Wal, start: Wal, nodes: set<string>, log': Wal, start': Wal, recruits: set<string>)
    requires SoundLog(log) && p <= log && start <= p && WellFormed(log) && WriteQuorum(p, nodes)
    requires DecidedNumber(p) == LastRule(start)
    requires SoundLog(log') && start' <= log' && WellFormed(start') && Froze(PositionAt(start'), recruits)
    requires PositionAt(start').proposal.Some?
    requires SameConfig(PositionAt(start).decision, PositionAt(start').decision)
    ensures Meet(recruits, nodes)
  {
    hide PositionAt, WriteQuorum, LastRule, WellFormed, DecidedNumber, Meet, Quorum, Frozen, CanFinish, Finishing,
      PolicyOf, InForce, Keys, SameConfig;
    PrefixIsBehind(p, log);
    PrefixIsBehind(start, p);
    WriteQuorumOfDecision(log, p, nodes);
    FinishersOf(log', start', recruits);
    SameConfigIsSymmetric(PositionAt(start).decision, PositionAt(start').decision);
    SameConfigFrozen(PositionAt(start').decision, PositionAt(start).decision, recruits);
    if PositionAt(start).proposal.Some? {
      var x := AfterProposal(start, p);
      assert log[x - 1] == p[x - 1] && log[..x - 1] == p[..x - 1];
      FrozenTooMeets(start, recruits, nodes);
    } else {
      SameDecision(start, p);
      FrozenMeetsQuorum(InForce(PositionAt(start).decision), recruits, nodes);
    }
  }

  lemma SameConfigIsSymmetric(a: Option<ShardRule>, b: Option<ShardRule>)
    ensures SameConfig(a, b) <==> SameConfig(b, a)
  {
    hide PolicyOf, Keys, CohortOf;
  }

  lemma {:induction false} SameDecision(a: Wal, wal: Wal)
    requires WellFormed(wal) && a <= wal && PositionAt(a).proposal.None? && DecidedNumber(wal) == LastRule(a)
    ensures PositionAt(wal).decision == PositionAt(a).decision
    decreases |wal|
  {
    PrefixIsBehind(a, wal);
    Numbering(a);
    if |a| == |wal| {
      assert a == wal;
    } else {
      var init, e := wal[..|wal| - 1], wal[|wal| - 1];
      assert wal == init + [e] && a <= init;
      PrefixIsBehind(a, init);
      AppendAdvances(init, e);
      Numbering(init);
      SameDecision(a, init);
    }
  }

  // ---------------------------------------------------------------- a start ahead of durable history contains it

  /** A start at least as advanced as `p` contains it. */
  lemma {:induction false} SeenIsKept(run: Run, t: nat, p: Wal, nodes: set<string>, m: nat, u: nat)
    requires Setup(run) && Durable(run, t, p, nodes, m) && 0 < u < |Tenures(run)|
    requires Term(Tenures(run)[t]) < Term(Tenures(run)[u])
    requires ComparePoolerPosition(At(Tenures(run)[u].start), At(p)) >= 0
    ensures p <= Tenures(run)[u].start
    decreases |run.states|, u, m, 2
  {
    hide Setup, Valid, ComparePoolerPosition, PositionAt, LastRule, WellFormed, Shaped, WriteQuorum, AckedBy, Acked,
      DecidedNumber;
    assert Valid(run) by { SetupValid(run); }
    var k := QuorumHasMember(p, nodes);
    var a := AcknowledgedWhen(run, t, p, nodes, m, k);
    AcknowledgedIsWritten(run, t, p, k, a);
    TenureFacts(run, u);
    if a > 0 {
      WrittenBefore(run, t, p, a - 1);
      var v := StartBefore(run, u);
      SetupUpto(run, |run.states| - 2);
      AheadIsKept(run, t, p, nodes, m, u, v);
    }
  }

  lemma {:induction false} AheadIsKept(run: Run, t: nat, p: Wal, nodes: set<string>, m: nat, u: nat, v: nat)
    requires Setup(run) && Durable(run, t, p, nodes, m) && 0 < u < |Tenures(run)|
    requires Term(Tenures(run)[t]) < Term(Tenures(run)[u])
    requires ComparePoolerPosition(At(Tenures(run)[u].start), At(p)) >= 0
    requires |run.states| >= 2 && v < u && v < |run.states[|run.states| - 2].tenures|
    requires Tenures(run)[u].start <= run.states[|run.states| - 2].tenures[v].log
    requires t < |run.states[|run.states| - 2].tenures| && p <= run.states[|run.states| - 2].tenures[t].log
    ensures p <= Tenures(run)[u].start
    decreases |run.states|, u, m, 1
  {
    hide Setup, Valid, ComparePoolerPosition, PositionAt, LastRule, WellFormed, Shaped, WriteQuorum, AckedBy,
      DecidedNumber;
    assert Valid(run) by { SetupValid(run); }
    var i := |run.states| - 2;
    SetupUpto(run, i);
    var before := Upto(run, i);
    assert Valid(before) by { SetupValid(before); }
    EverythingOrdered(before);
    var ts, start, term := Tenures(before), Tenures(run)[u].start, Term(Tenures(run)[t]);
    TenureFacts(run, u);
    var owner, g := WalShape(before, start, v);
    TenureFacts(before, t);
    TenureFacts(before, owner);
    TenureFacts(before, v);
    PrefixIsBehind(start, ts[v].log);
    if g > 0 { FirstIsLowest(before, g); }
    if t > 0 { FirstIsLowest(before, t); }
    if owner > 0 { FirstIsLowest(before, owner); }
    if g != 0 && Term(ts[g]) > term {
      Preservation(run, t, p, nodes, m, g);
    } else if g == 0 && Term(ts[owner]) > term {
      Preservation(run, t, p, nodes, m, owner);
      OwnIsPastStart(ts[owner], Genesis(run), start);
    } else if g == 0 && Term(ts[owner]) == term {
      assert owner == t;
      AheadIsLonger(start, p, ts[t].log);
    } else {
      OldStartIsBehind(before, t, p, start, owner, g);
    }
  }

  /** A start that ends before term `t`, and was not finished by a later tenure, is behind `p`. */
  lemma {:induction false} OldStartIsBehind(run: Run, t: nat, p: Wal, start: Wal, owner: nat, g: nat)
    requires Setup(run) && AllOrdered(run) && 0 < t < |Tenures(run)| && owner < |Tenures(run)| && g < |Tenures(run)|
    requires p <= Tenures(run)[t].log && LastRule(p).term == Term(Tenures(run)[t])
    requires Genesis(run) <= start && WellFormed(start) && LastRule(start).term == Term(Tenures(run)[owner])
    requires if g == 0 then start <= Tenures(run)[owner].log && Term(Tenures(run)[owner]) < Term(Tenures(run)[t])
             else start == Tenures(run)[g].start + [Decide] && Term(Tenures(run)[g]) <= Term(Tenures(run)[t])
    ensures ComparePoolerPosition(At(start), At(p)) < 0
    decreases |run.states|, |Tenures(run)|, |run.states|, 3
  {
    hide Setup, Valid, ComparePoolerPosition, PositionAt, LastRule, WellFormed, Shaped, DecidedNumber;
    assert Valid(run) by { SetupValid(run); }
    var ts := Tenures(run);
    var term, outgoing := Term(ts[t]), LastRule(ts[t].start);
    TenureFacts(run, t);
    OwnDecision(ts[t], Genesis(run), p);
    PrefixIsBehind(p, ts[t].log);
    if g != 0 {
      TenureFacts(run, g);
      DecideKeepsLastRule(ts[g].start);
      if g < t { assert Ordered(ts[g], ts[t]); }
      if t < g { assert Ordered(ts[t], ts[g]); }
    } else {
      OldDecision(run, t, owner, start);
    }
    BehindOwnHistory(start, p, outgoing, term);
  }

  lemma {:induction false} OldDecision(run: Run, t: nat, owner: nat, wal: Wal)
    requires Setup(run) && AllOrdered(run) && 0 < t < |Tenures(run)| && owner < |Tenures(run)|
    requires Genesis(run) <= wal <= Tenures(run)[owner].log
    requires LastRule(wal).term == Term(Tenures(run)[owner]) < Term(Tenures(run)[t])
    ensures CompareRuleNumbers(DecidedNumber(wal), LastRule(Tenures(run)[t].start)) <= 0
    decreases |run.states|, |Tenures(run)|, |run.states|, 2
  {
    hide Setup, Valid, ComparePoolerPosition, PositionAt, LastRule, WellFormed, Shaped, DecidedNumber;
    assert Valid(run) by { SetupValid(run); }
    var ts := Tenures(run);
    TenureFacts(run, owner);
    PrefixIsBehind(wal, ts[owner].log);
    PrefixIsBehind(Genesis(run), wal);
    GenesisRule(run);
    InitialDecision(run);
    DecisionsAdvance(Genesis(run), wal);
    if owner > 0 {
      OwnDecision(ts[owner], Genesis(run), wal);
    } else {
      GenesisDecided(run, wal);
    }
    if DecidedNumber(wal).term == Term(ts[owner]) {
      OldDecisionsAreKnown(run, owner, |run.states| - 1, wal, t);
    } else {
      if owner < t { assert Ordered(ts[owner], ts[t]); }
      if t < owner { assert Ordered(ts[t], ts[owner]); }
    }
  }

  lemma DecisionsAdvance(a: Wal, wal: Wal)
    requires WellFormed(wal) && a <= wal
    ensures CompareRuleNumbers(DecidedNumber(wal), DecidedNumber(a)) >= 0
  {
    PrefixIsBehind(a, wal);
    hide PositionAt, WellFormed;
  }

  // ---------------------------------------------------------------- what clients and replicas see

  /** Election safety: no two tenures of a run share a term, and what they transition from follows their terms. */
  lemma OneTenurePerTerm(run: Run, t: nat, u: nat)
    requires Setup(run) && t < u < |Tenures(run)|
    ensures Term(Tenures(run)[t]) != Term(Tenures(run)[u])
    ensures var a, b := Tenures(run)[t], Tenures(run)[u];
            var lo, hi := if Term(a) < Term(b) then a else b, if Term(a) < Term(b) then b else a;
            CompareRuleNumbers(LastRule(lo.start), LastRule(hi.start)) <= 0
  {
    hide Setup, LastRule;
    EverythingOrdered(run);
    assert Ordered(Tenures(run)[t], Tenures(run)[u]);
  }

  /** No split brain: any two durable histories lie on one line. */
  lemma NoSplitBrain(run: Run, t: nat, p: Wal, nodes: set<string>, m: nat, u: nat, q: Wal, nodes': set<string>, m': nat)
    requires Setup(run) && Durable(run, t, p, nodes, m) && Durable(run, u, q, nodes', m')
    ensures p <= q || q <= p
    ensures Term(Tenures(run)[t]) < Term(Tenures(run)[u]) ==> p <= q
  {
    hide Setup, Valid, WriteQuorum, AckedBy, PositionAt, WellFormed, LastRule;
    SetupValid(run);
    if Term(Tenures(run)[t]) < Term(Tenures(run)[u]) {
      LaterHistoryContains(run, t, p, nodes, m, u, q);
    } else if Term(Tenures(run)[t]) > Term(Tenures(run)[u]) {
      LaterHistoryContains(run, u, q, nodes', m', t, p);
    } else {
      if t < u { OneTenurePerTerm(run, t, u); }
      if u < t { OneTenurePerTerm(run, u, t); }
    }
  }

  lemma LaterHistoryContains(run: Run, t: nat, p: Wal, nodes: set<string>, m: nat, u: nat, q: Wal)
    requires Setup(run) && Durable(run, t, p, nodes, m) && u < |Tenures(run)|
    requires Term(Tenures(run)[t]) < Term(Tenures(run)[u])
    requires q <= Tenures(run)[u].log && LastRule(q).term == Term(Tenures(run)[u])
    ensures p <= q
  {
    hide Setup, Valid, WriteQuorum, AckedBy, PositionAt, WellFormed, LastRule;
    SetupValid(run);
    if u == 0 { FirstIsLowest(run, t); }
    Preservation(run, t, p, nodes, m, u);
    TenureFacts(run, u);
    OwnIsPastStart(Tenures(run)[u], Genesis(run), q);
  }

  /** A replica whose WAL has reached a later term holds every durable history of earlier terms. */
  lemma ReplicasHoldDurableHistory(run: Run, t: nat, p: Wal, nodes: set<string>, m: nat, k: string, i: nat)
    requires Setup(run) && Durable(run, t, p, nodes, m)
    requires i < |run.states| && k in run.states[i].nodes
    requires LastRule(run.states[i].nodes[k].wal).term > Term(Tenures(run)[t])
    ensures p <= run.states[i].nodes[k].wal
  {
    hide Setup, Valid, WriteQuorum, AckedBy, PositionAt, WellFormed, LastRule;
    SetupValid(run);
    var wal := run.states[i].nodes[k].wal;
    assert Held(run, wal, k, i);
    var v := HeldInTenure(run, wal, k, i);
    var owner, g := WalShape(run, wal, v);
    if g == 0 {
      LaterHistoryContains(run, t, p, nodes, m, owner, wal);
    } else {
      TenureFacts(run, g);
      TenureFacts(run, v);
      PrefixIsBehind(wal, Tenures(run)[v].log);
      DecideKeepsLastRule(Tenures(run)[g].start);
      Preservation(run, t, p, nodes, m, g);
    }
  }

  /** A client write a tenure made and a quorum acknowledged is in every later tenure, whoever leads it. */
  lemma AcknowledgedWriteSurvives(run: Run, t: nat, x: nat, nodes: set<string>, m: nat, u: nat)
    requires Setup(run) && t < |Tenures(run)| && 0 < u < |Tenures(run)|
    requires |Tenures(run)[t].start| <= x < |Tenures(run)[t].log| && Tenures(run)[t].log[x].Write?
    requires WriteQuorum(Tenures(run)[t].log[..x + 1], nodes) && AckedBy(run, t, Tenures(run)[t].log[..x + 1], nodes, m)
    requires Term(Tenures(run)[t]) < Term(Tenures(run)[u])
    ensures x < |Tenures(run)[u].start| && Tenures(run)[u].start[x] == Tenures(run)[t].log[x]
  {
    hide Setup, Valid, WriteQuorum, AckedBy, PositionAt, WellFormed, LastRule, DecidedNumber;
    SetupValid(run);
    var log := Tenures(run)[t].log;
    WriteIsOwn(run, t, x);
    assert Durable(run, t, log[..x + 1], nodes, m);
    Preservation(run, t, log[..x + 1], nodes, m, u);
  }
}
