/** Exactly which changes of rule are safe: a loosening change that is not frozen along with its decision lets a run
    lose a durable write, and between any other two configurations every run is safe. */
module RuleChanges {
  import opened Types
  import opened Compare
  import opened Policy
  import opened Durability
  import opened Revocation
  import opened Proposals
  import opened Protocol
  import opened ProtocolInvariants
  import opened ProtocolHistory
  import opened ProtocolSafety
  import opened RuleFamilies
  import opened RunBuilding
  import opened GroupedRuns

  // ---------------------------------------------------------------- runs between two configurations

  ghost predicate HasConfig(rule: ShardRule, p: PolicyWithCohort) {
    PolicyOf(Some(rule)) == Ok(p.policy) && Keys(rule.cohort) == Keys(p.cohort) && |Keys(rule.cohort)| == |rule.cohort|
  }

  /** Every rule a leadership writes has one of two configurations. */
  ghost predicate WritesOnly(run: Run, a: PolicyWithCohort, b: PolicyWithCohort) {
    forall t, j :: 0 <= t < |Tenures(run)| && 0 <= j < |Tenures(run)[t].log| && Tenures(run)[t].log[j].Propose? ==>
      HasConfig(Tenures(run)[t].log[j].rule, a) || HasConfig(Tenures(run)[t].log[j].rule, b)
  }

  /** And so has every rule a round proposes, whether it gets written or not. */
  ghost predicate UsesOnly(run: Run, a: PolicyWithCohort, b: PolicyWithCohort) {
    && WritesOnly(run, a, b)
    && forall t :: 0 <= t < |Tenures(run)| ==>
         HasConfig(Tenures(run)[t].opening, a) || HasConfig(Tenures(run)[t].opening, b)
  }

  /** Durable history is in the start of every leadership of a later term. */
  ghost predicate Preserves(run: Run) {
    forall t: nat, p, nodes, m: nat, u: nat | Durable(run, t, p, nodes, m) && 0 < u < |Tenures(run)|
      && Term(Tenures(run)[t]) < Term(Tenures(run)[u]) :: p <= Tenures(run)[u].start
  }

  /** Every run between two configurations preserves durable history. */
  ghost predicate SafeBetween(a: PolicyWithCohort, b: PolicyWithCohort) {
    forall run :: Valid(run) && UsesOnly(run, a, b) ==> Preserves(run)
  }

  /** The same, even if rounds may propose anything that never gets written. */
  ghost predicate SafeWriting(a: PolicyWithCohort, b: PolicyWithCohort) {
    forall run :: Valid(run) && WritesOnly(run, a, b) ==> Preserves(run)
  }

  lemma SetupPreserves(run: Run)
    requires Setup(run)
    ensures Preserves(run)
  {
    hide Setup, WriteQuorum, AckedBy;
    forall t: nat, p, nodes, m: nat, u: nat | Durable(run, t, p, nodes, m) && 0 < u < |Tenures(run)|
      && Term(Tenures(run)[t]) < Term(Tenures(run)[u]) ensures p <= Tenures(run)[u].start
    {
      Preservation(run, t, p, nodes, m, u);
    }
  }

  // ---------------------------------------------------------------- frozen changes are safe

  lemma AlikeFreeze(x: ShardRule, y: ShardRule, a: PolicyWithCohort, b: PolicyWithCohort)
    requires HasConfig(x, a) && HasConfig(y, b) && FreezesProposalToo(a, b)
    ensures FreezesProposalToo(InForce(Some(x)), InForce(Some(y)))
  {
    hide Keys, Meet, PolicyOf;
    var p, q := InForce(Some(x)), InForce(Some(y));
    forall r, nodes | Finishing(p, r) && Quorum(q, nodes) ensures Meet(r, nodes) {
      assert Finishing(a, r) && Quorum(b, nodes);
    }
  }

  lemma SameFreezes(a: PolicyWithCohort)
    ensures FreezesProposalToo(a, a)
  {
    hide Frozen, Quorum, Meet;
    forall r, q | Finishing(a, r) && Quorum(a, q) ensures Meet(r, q) { FrozenMeetsQuorum(a, r, q); }
  }

  /** A loosening change: the combined policy is the decision's. */
  ghost predicate Loosening(decision: PolicyWithCohort, proposal: PolicyWithCohort) {
    && DuplicateFree(decision) && DuplicateFree(proposal)
    && BuildPolicyTransition(decision, proposal).Ok?
    && BuildPolicyTransition(decision, proposal).value.both == decision
  }

  lemma LooseningWidens(decision: PolicyWithCohort, proposal: PolicyWithCohort)
    requires Loosening(decision, proposal)
    ensures Keys(decision.cohort) <= Keys(proposal.cohort)
    ensures decision.policy.AtLeastN? == proposal.policy.AtLeastN?
    ensures decision.policy.AtLeastN? ==> proposal.policy.n <= decision.policy.n
  {
    BothCohortInside(decision, proposal);
    if SameCohort(decision.cohort, proposal.cohort) { SameCohortOnDistinct(decision.cohort, proposal.cohort); }
    SubsetMeaning(decision.cohort, proposal.cohort);
    hide Keys, SameCohort, CohortIsSubsetOf;
  }

  lemma ReverseFreezes(decision: PolicyWithCohort, proposal: PolicyWithCohort)
    requires Loosening(decision, proposal)
    ensures FreezesProposalToo(proposal, decision)
  {
    hide Keys, Frozen, Meet, Loosening;
    LooseningWidens(decision, proposal);
    forall r, q | Finishing(proposal, r) && Quorum(decision, q) ensures Meet(r, q) {
      assert Quorum(proposal, q);
      FrozenMeetsQuorum(proposal, r, q);
    }
  }

  lemma WritesOnlyIsSound(run: Run, a: PolicyWithCohort, b: PolicyWithCohort, t: nat)
    requires WritesOnly(run, a, b) && Loosening(a, b) && FreezesProposalToo(a, b) && t < |Tenures(run)|
    ensures SoundLog(Tenures(run)[t].log)
  {
    hide PositionAt, HasConfig, FreezesProposalToo, Loosening;
    var log := Tenures(run)[t].log;
    forall j | 0 <= j < |log| && log[j].Propose? ensures |Keys(log[j].rule.cohort)| == |log[j].rule.cohort| {
      DistinctRule(log[j].rule, a, b);
    }
    forall x | 0 <= x < |log| && log[x].Decide? ensures FreezesAt(PositionAt(log[..x])) {
      ChangeFreezes(run, a, b, t, x);
    }
  }

  lemma DistinctRule(rule: ShardRule, a: PolicyWithCohort, b: PolicyWithCohort)
    requires HasConfig(rule, a) || HasConfig(rule, b)
    ensures |Keys(rule.cohort)| == |rule.cohort|
  {
    hide Keys, PolicyOf;
  }

  lemma ChangeFreezes(run: Run, a: PolicyWithCohort, b: PolicyWithCohort, t: nat, x: nat)
    requires WritesOnly(run, a, b) && Loosening(a, b) && FreezesProposalToo(a, b)
    requires t < |Tenures(run)| && x < |Tenures(run)[t].log|
    ensures FreezesAt(PositionAt(Tenures(run)[t].log[..x]))
  {
    hide PositionAt, HasConfig, FreezesProposalToo, Loosening, InForce;
    var wal := Tenures(run)[t].log[..x];
    var pos := PositionAt(wal);
    DecisionWasProposed(wal);
    assert PolicyOf(None).Err?;
    hide PolicyOf;
    if PolicyOf(pos.decision).Ok? && PolicyOf(pos.proposal).Ok? {
      var i :| 0 <= i < |wal| && wal[i] == Propose(pos.decision.value);
      var j :| 0 <= j < |wal| && wal[j] == Propose(pos.proposal.value);
      assert Tenures(run)[t].log[i] == wal[i] && Tenures(run)[t].log[j] == wal[j];
      var d, p := pos.decision.value, pos.proposal.value;
      ConfigFreezes(d, p, a, b);
    }
  }

  /** A rule of either configuration, reduced to the configuration it has. */
  lemma ConfigFreezes(x: ShardRule, y: ShardRule, a: PolicyWithCohort, b: PolicyWithCohort)
    requires (HasConfig(x, a) || HasConfig(x, b)) && (HasConfig(y, a) || HasConfig(y, b))
    requires Loosening(a, b) && FreezesProposalToo(a, b) && PolicyOf(Some(x)).Ok? && PolicyOf(Some(y)).Ok?
    ensures FreezesProposalToo(InForce(Some(x)), InForce(Some(y)))
  {
    hide HasConfig, FreezesProposalToo, Loosening, PolicyOf, InForce;
    SameFreezes(a);
    SameFreezes(b);
    ReverseFreezes(a, b);
    if HasConfig(x, a) {
      if HasConfig(y, a) { AlikeFreeze(x, y, a, a); } else { AlikeFreeze(x, y, a, b); }
    } else {
      if HasConfig(y, a) { AlikeFreeze(x, y, b, a); } else { AlikeFreeze(x, y, b, b); }
    }
  }

  /** Recruits that satisfy either configuration contain a quorum of the looser one. */
  lemma OpeningHoldsQuorum(opening: ShardRule, a: PolicyWithCohort, b: PolicyWithCohort, r: set<string>)
    requires Loosening(a, b) && CanOpen(opening, r) && (HasConfig(opening, a) || HasConfig(opening, b))
    ensures Quorum(b, r * Keys(b.cohort))
  {
    hide Keys, PolicyOf, Loosening;
    LooseningWidens(a, b);
    SatisfiesMonotone(b.policy, r * Keys(opening.cohort), r * Keys(b.cohort));
  }

  lemma HasConfigFrozen(x: ShardRule, p: PolicyWithCohort, r: set<string>)
    requires HasConfig(x, p) && PolicyOf(Some(x)).Ok? && Frozen(InForce(Some(x)), r)
    ensures Frozen(p, r)
  {
    hide Keys, PolicyOf;
  }

  /** Rounds on either configuration overlap. */
  lemma RoundsOverlap(x: ShardRule, y: ShardRule, a: PolicyWithCohort, b: PolicyWithCohort, r: set<string>,
                      r': set<string>)
    requires (HasConfig(x, a) || HasConfig(x, b)) && (HasConfig(y, a) || HasConfig(y, b))
    requires PolicyOf(Some(x)).Ok? && Frozen(InForce(Some(x)), r) && PolicyOf(Some(y)).Ok?
    requires Frozen(InForce(Some(y)), r')
    requires Quorum(b, r * Keys(b.cohort)) && Quorum(b, r' * Keys(b.cohort))
    ensures Meet(r, r')
  {
    hide HasConfig, Keys, PolicyOf, InForce, Frozen, Quorum;
    if HasConfig(x, b) {
      HasConfigFrozen(x, b, r);
      FrozenMeetsQuorum(b, r, r' * Keys(b.cohort));
      var k :| k in r && k in r' * Keys(b.cohort);
    } else if HasConfig(y, b) {
      HasConfigFrozen(y, b, r');
      FrozenMeetsQuorum(b, r', r * Keys(b.cohort));
      var k :| k in r' && k in r * Keys(b.cohort);
    } else {
      HasConfigFrozen(x, a, r);
      HasConfigFrozen(y, a, r');
      FrozenOverlap(a, r, r');
    }
  }

  lemma FrozenOverlap(p: PolicyWithCohort, r: set<string>, r': set<string>)
    requires Frozen(p, r) && Frozen(p, r')
    ensures Meet(r, r')
  {
    hide Keys, Satisfies;
    var cohort := Keys(p.cohort);
    RecruitmentsMeet(p.policy, p.policy, cohort, r * cohort, r' * cohort);
    var k :| k in r * cohort && k in r' * cohort;
  }

  lemma UsedConfig(run: Run, a: PolicyWithCohort, b: PolicyWithCohort, rule: ShardRule)
    requires UsesOnly(run, a, b) && Used(run, rule)
    ensures HasConfig(rule, a) || HasConfig(rule, b)
  {
    hide HasConfig;
    var t :| 0 <= t < |Tenures(run)| && (Tenures(run)[t].opening == rule || Propose(rule) in Tenures(run)[t].log);
    if Tenures(run)[t].opening != rule {
      var j :| 0 <= j < |Tenures(run)[t].log| && Tenures(run)[t].log[j] == Propose(rule);
      assert Tenures(run)[t].log[j].Propose?;
    }
  }

  lemma FrozenChangeInterlocks(run: Run, a: PolicyWithCohort, b: PolicyWithCohort)
    requires UsesOnly(run, a, b) && Loosening(a, b) && FreezesProposalToo(a, b)
    ensures Interlocked(run)
  {
    hide UsesOnly, Used, HasConfig, Loosening, FreezesProposalToo, PolicyOf, InForce, Frozen, CanOpen, Meet, Quorum,
      Keys;
    forall x, y | Used(run, x) && Used(run, y) && PolicyOf(Some(x)).Ok? && PolicyOf(Some(y)).Ok?
      ensures FreezesProposalToo(InForce(Some(x)), InForce(Some(y)))
    {
      UsedConfig(run, a, b, x);
      UsedConfig(run, a, b, y);
      ConfigFreezes(x, y, a, b);
    }
    forall x, y, r, r' | Used(run, x) && Used(run, y) && Effective(run, x, r) && Effective(run, y, r')
      ensures Meet(r, r')
    {
      UsedConfig(run, a, b, x);
      UsedConfig(run, a, b, y);
      var o :| Used(run, o) && CanOpen(o, r);
      var o' :| Used(run, o') && CanOpen(o', r');
      UsedConfig(run, a, b, o);
      UsedConfig(run, a, b, o');
      OpeningHoldsQuorum(o, a, b, r);
      OpeningHoldsQuorum(o', a, b, r');
      RoundsOverlap(x, y, a, b, r, r');
    }
  }

  /** A frozen change is safe in every run between the two configurations, in both directions. */
  lemma FrozenChangeIsSafe(decision: PolicyWithCohort, proposal: PolicyWithCohort)
    requires Loosening(decision, proposal) && FreezesProposalToo(decision, proposal)
    ensures SafeBetween(decision, proposal)
  {
    hide Valid, WritesOnly, HasConfig, Loosening, FreezesProposalToo, SoundLog, Interlocked, Preserves;
    forall run | Valid(run) && UsesOnly(run, decision, proposal) ensures Preserves(run) {
      forall t | 0 <= t < |Tenures(run)| ensures SoundLog(Tenures(run)[t].log) {
        WritesOnlyIsSound(run, decision, proposal, t);
      }
      FrozenChangeInterlocks(run, decision, proposal);
      SetupPreserves(run);
    }
  }

  // ---------------------------------------------------------------- configurations that protect each other

  lemma AlikeMeet(x: ShardRule, y: ShardRule, a: PolicyWithCohort, b: PolicyWithCohort)
    requires HasConfig(x, a) && HasConfig(y, b) && PairMeets(a, b)
    ensures PolicyOf(Some(x)).Ok? && PolicyOf(Some(y)).Ok? && PairMeets(InForce(Some(x)), InForce(Some(y)))
  {
    hide Keys, Meet, PolicyOf, Satisfies;
    var p, q := InForce(Some(x)), InForce(Some(y));
    forall r, nodes | Frozen(p, r) && Quorum(q, nodes)
      ensures Meet(r, nodes)
    {
      assert Frozen(a, r) && Quorum(b, nodes);
    }
    forall r, r' | Frozen(p, r) && Frozen(q, r') ensures Meet(r, r') { assert Frozen(a, r) && Frozen(b, r'); }
  }

  /** The configurations a run's rules put in force. */
  ghost function Configs(run: Run): set<PolicyWithCohort> {
    set t, j | 0 <= t < |Tenures(run)| && 0 <= j < |Tenures(run)[t].log| && Tenures(run)[t].log[j].Propose?
               && PolicyOf(Some(Tenures(run)[t].log[j].rule)).Ok? :: InForce(Some(Tenures(run)[t].log[j].rule))
  }

  /** Configurations that protect each other are safe whatever rounds propose. */
  lemma CompatiblePairIsSafe(a: PolicyWithCohort, b: PolicyWithCohort)
    requires Compatible({a, b})
    ensures SafeWriting(a, b)
  {
    hide Valid, WritesOnly, PairMeets, Preserves, Governed;
    forall run | Valid(run) && WritesOnly(run, a, b) ensures Preserves(run) {
      ConfigsAreCompatible(run, a, b);
      assert Familial(run);
      SetupPreserves(run);
    }
  }

  lemma ConfigsAreCompatible(run: Run, a: PolicyWithCohort, b: PolicyWithCohort)
    requires WritesOnly(run, a, b) && Compatible({a, b})
    ensures Compatible(Configs(run)) && Governed(run, Configs(run))
  {
    hide PairMeets, HasConfig, InForce, PolicyOf;
    forall p, q | p in Configs(run) && q in Configs(run) ensures PairMeets(p, q) {
      var x := ConfigOf(run, a, b, p);
      var y := ConfigOf(run, a, b, q);
      MeetsAlike(x, y, a, b);
    }
    forall t, j | 0 <= t < |Tenures(run)| && 0 <= j < |Tenures(run)[t].log|
      ensures GovernedEntry(Tenures(run)[t].log[j], Configs(run))
    {
      var e := Tenures(run)[t].log[j];
      if e.Propose? {
        assert PolicyOf(Some(e.rule)).Ok? by { ConfigIsOk(e.rule, a, b); }
        assert InForce(Some(e.rule)) in Configs(run);
      }
    }
  }

  lemma ConfigIsOk(rule: ShardRule, a: PolicyWithCohort, b: PolicyWithCohort)
    requires HasConfig(rule, a) || HasConfig(rule, b)
    ensures PolicyOf(Some(rule)).Ok?
  {
    hide Keys, PolicyOf;
  }

  lemma ConfigOf(run: Run, a: PolicyWithCohort, b: PolicyWithCohort, p: PolicyWithCohort) returns (rule: ShardRule)
    requires WritesOnly(run, a, b) && p in Configs(run)
    ensures (HasConfig(rule, a) || HasConfig(rule, b)) && PolicyOf(Some(rule)).Ok? && InForce(Some(rule)) == p
  {
    hide HasConfig, PolicyOf, InForce;
    var t, j :| 0 <= t < |Tenures(run)| && 0 <= j < |Tenures(run)[t].log| && Tenures(run)[t].log[j].Propose?
                && PolicyOf(Some(Tenures(run)[t].log[j].rule)).Ok? && InForce(Some(Tenures(run)[t].log[j].rule)) == p;
    rule := Tenures(run)[t].log[j].rule;
  }

  lemma MeetsAlike(x: ShardRule, y: ShardRule, a: PolicyWithCohort, b: PolicyWithCohort)
    requires (HasConfig(x, a) || HasConfig(x, b)) && (HasConfig(y, a) || HasConfig(y, b)) && Compatible({a, b})
    ensures PolicyOf(Some(x)).Ok? && PolicyOf(Some(y)).Ok? && PairMeets(InForce(Some(x)), InForce(Some(y)))
  {
    hide HasConfig, PairMeets, PolicyOf, InForce;
    if HasConfig(x, a) {
      if HasConfig(y, a) { AlikeMeet(x, y, a, a); } else { AlikeMeet(x, y, a, b); }
    } else {
      if HasConfig(y, a) { AlikeMeet(x, y, b, a); } else { AlikeMeet(x, y, b, b); }
    }
  }

  // ---------------------------------------------------------------- changes of leader

  /** Runs that only change leaders need nothing else: whatever the policy, they are orderly. */
  lemma LeaderChangesAreOrderly(run: Run, p: PolicyWithCohort)
    requires Valid(run) && WritesOnly(run, p, p) && DuplicateFree(p)
    ensures Orderly(run)
  {
    hide Valid, WritesOnly, SoundLog, ConfirmedRound, FreezesProposalToo;
    assert Loosening(p, p) by { SameIsLoosening(p); }
    hide Loosening;
    SameFreezes(p);
    forall t | 0 <= t < |Tenures(run)| ensures SoundLog(Tenures(run)[t].log) { WritesOnlyIsSound(run, p, p, t); }
    forall c | 0 <= c < |run.states| - 1 ensures ConfirmedRound(run, c) { FirstDecisionConfirms(run, p, c); }
  }

  lemma SameIsLoosening(p: PolicyWithCohort)
    requires DuplicateFree(p)
    ensures Loosening(p, p)
  {
    forall id | id in p.cohort ensures MemberOf(p.cohort, id) { assert ClusterKey(id) in Keys(p.cohort); }
    hide Keys;
  }

  /** The initial decision is an anchor of every WAL. */
  lemma FirstDecisionConfirms(run: Run, p: PolicyWithCohort, c: nat)
    requires Valid(run) && WritesOnly(run, p, p) && c + 1 < |run.states|
    ensures ConfirmedRound(run, c)
  {
    hide Valid, WritesOnly, NoWeaker, ComparePoolerPosition, PositionAt, LastRule, DecidedNumber, ConfirmedBy,
      Shaped, WellFormed;
    var u := |run.states[c].tenures|;
    if u < |run.states[c + 1].tenures| {
      GenesisStart(run, c);
      RunGrows(run, c + 1, |run.states| - 1);
      RunGrows(run, c, |run.states| - 1);
      var start := run.states[c + 1].tenures[u].start;
      TenureFacts(run, u);
      AnchorOfFirst(run, c);
      ConfirmedByFirst(run, p, c, u);
    }
  }

  lemma AnchorOfFirst(run: Run, c: nat)
    requires Valid(run) && c < |run.states|
    ensures |run.states[c].tenures| > 0 && Anchor(run.states[c].tenures[0], 1)
    ensures run.states[c].tenures[0].log[..1] <= Genesis(run)
    ensures LastRule(run.states[c].tenures[0].log[..1]) == LastRule(Genesis(run)) == DecidedNumber(Genesis(run))
    ensures PositionAt(run.states[c].tenures[0].log[..1]).proposal == PositionAt(Genesis(run)).decision
  {
    hide Valid, Shaped;
    EveryStateOk(run, c);
    GenesisStart(run, c);
    var t := run.states[c].tenures[0];
    assert TenureOk(t, Genesis(run), true);
    GenesisIs(run);
    InitialDecision(run);
    var rule := run.states[0].tenures[0].opening;
    assert t.log[1] == Genesis(run)[1] == Decide && t.log[..1] == Genesis(run)[..1] == [Propose(rule)];
    assert [Propose(rule)][..0] == [];
    assert PositionAt([Propose(rule)]) == RulePosition(None, Some(rule));
    assert Genesis(run)[..1] == [Propose(rule)];
    assert PositionAt(Genesis(run)) == RulePosition(Some(rule), None);
    RunGrows(run, 0, c);
    hide PositionAt;
  }

  lemma GenesisIs(run: Run)
    requires Valid(run)
    ensures |run.states| > 0 && |run.states[0].tenures| > 0
    ensures var t := run.states[0].tenures[0];
            Genesis(run) == [Propose(t.opening), Decide]
            && !IsUnset(t.opening.number) && t.opening.number.term == Term(t)
  {
    hide Step;
  }

  lemma ConfirmedByFirst(run: Run, p: PolicyWithCohort, c: nat, u: nat)
    requires Valid(run) && WritesOnly(run, p, p) && c < |run.states| && 0 < u < |Tenures(run)|
    ensures |run.states[c].tenures| > 0 && ConfirmedBy(run.states[c].tenures[0], 1, Tenures(run)[u].start)
  {
    hide Valid, WritesOnly, PositionAt, LastRule, DecidedNumber, Shaped, WellFormed, SameConfig;
    AnchorOfFirst(run, c);
    TenureFacts(run, u);
    var t, start := run.states[c].tenures[0], Tenures(run)[u].start;
    PrefixIsBehind(start, Tenures(run)[u].log);
    DecisionsAdvance(Genesis(run), start);
    GenesisRule(run);
    forall j | 1 < j <= |start| && CompareRuleNumbers(DecidedNumber(start[..j]), LastRule(t.log[..1])) >= 0
      ensures SameConfig(PositionAt(start[..j]).decision, PositionAt(t.log[..1]).proposal)
    {
      OneConfig(run, p, u, start[..j], Genesis(run));
    }
  }

  lemma OneConfig(run: Run, p: PolicyWithCohort, u: nat, a: Wal, b: Wal)
    requires WritesOnly(run, p, p) && u < |Tenures(run)| && a <= Tenures(run)[u].log && b <= Tenures(run)[u].log
    requires !IsUnset(DecidedNumber(a)) && !IsUnset(DecidedNumber(b))
    ensures SameConfig(PositionAt(a).decision, PositionAt(b).decision)
  {
    hide PositionAt, DecidedNumber, PolicyOf, Keys;
    DecisionRule(a);
    DecisionRule(b);
    var i :| 0 <= i < |a| && a[i] == Propose(PositionAt(a).decision.value);
    var j :| 0 <= j < |b| && b[j] == Propose(PositionAt(b).decision.value);
    var log := Tenures(run)[u].log;
    assert log[i] == a[i] && log[j] == b[j];
    assert HasConfig(log[i].rule, p) && HasConfig(log[j].rule, p);
  }

  // ---------------------------------------------------------------- a change that is not frozen loses a write

  /** What the leaders write. The first proposes a looser rule and decides it; the second opens its own term on that
      decision and takes a client's write. */
  function Decided(d: PolicyWithCohort): Wal { [Propose(RuleFor(d, RuleNumber(1, 0))), Decide] }

  function Proposed(d: PolicyWithCohort, p: PolicyWithCohort): Wal {
    Decided(d) + [Propose(RuleFor(p, RuleNumber(1, 1)))]
  }

  function Loosened(d: PolicyWithCohort, p: PolicyWithCohort): Wal { Proposed(d, p) + [Decide] }

  function Opened(d: PolicyWithCohort, p: PolicyWithCohort): Wal {
    Loosened(d, p) + [Propose(RuleFor(p, RuleNumber(2, 0)))]
  }

  function Established(d: PolicyWithCohort, p: PolicyWithCohort): Wal { Opened(d, p) + [Decide] }

  function Written(d: PolicyWithCohort, p: PolicyWithCohort): Wal { Established(d, p) + [Write(7)] }

  lemma Positions(d: PolicyWithCohort, p: PolicyWithCohort)
    ensures PositionAt(Decided(d)) == RulePosition(Some(RuleFor(d, RuleNumber(1, 0))), None)
    ensures PositionAt(Proposed(d, p)) ==
            RulePosition(Some(RuleFor(d, RuleNumber(1, 0))), Some(RuleFor(p, RuleNumber(1, 1))))
    ensures PositionAt(Loosened(d, p)) == RulePosition(Some(RuleFor(p, RuleNumber(1, 1))), None)
    ensures PositionAt(Opened(d, p)) == RulePosition(Some(RuleFor(p, RuleNumber(1, 1))),
                                                     Some(RuleFor(p, RuleNumber(2, 0))))
    ensures PositionAt(Established(d, p)) == PositionAt(Written(d, p))
            == RulePosition(Some(RuleFor(p, RuleNumber(2, 0))), None)
  {
    var first := RuleFor(d, RuleNumber(1, 0));
    hide RuleFor;
    assert PositionAt([Propose(first)]) == RulePosition(None, Some(first)) by { assert [Propose(first)][..0] == []; }
    assert Decided(d)[..1] == [Propose(first)] && Proposed(d, p)[..2] == Decided(d);
    assert Loosened(d, p)[..3] == Proposed(d, p);
    assert Opened(d, p)[..4] == Loosened(d, p) && Established(d, p)[..5] == Opened(d, p);
    assert Written(d, p)[..6] == Established(d, p);
  }

  lemma LosingRuleNumbers(d: PolicyWithCohort, p: PolicyWithCohort)
    ensures RuleFor(d, RuleNumber(1, 0)).number == RuleNumber(1, 0)
    ensures RuleFor(p, RuleNumber(1, 1)).number == RuleNumber(1, 1)
    ensures RuleFor(p, RuleNumber(2, 0)).number == RuleNumber(2, 0)
    ensures RuleFor(p, RuleNumber(3, 0)).number == RuleNumber(3, 0)
  {
  }

  function FirstLeader(d: PolicyWithCohort, log: Wal): Tenure {
    Tenure(FirstRound, RuleFor(d, RuleNumber(1, 0)), Decided(d), log)
  }

  function SecondLeader(d: PolicyWithCohort, p: PolicyWithCohort, log: Wal): Tenure {
    Tenure(RoundOf(2, RuleNumber(1, 1)), RuleFor(p, RuleNumber(2, 0)), Loosened(d, p), log)
  }

  function ThirdLeader(d: PolicyWithCohort, p: PolicyWithCohort): Tenure {
    Tenure(RoundOf(3, RuleNumber(1, 1)), RuleFor(p, RuleNumber(3, 0)), Proposed(d, p), Proposed(d, p))
  }

  /** `r` acknowledges the looser rule, `z` alone learns it is decided, `q` acknowledges the write. */
  function Parties(p: PolicyWithCohort, r: set<string>, z: string, q: set<string>): Groups {
    Groups(p.cohort, r, {z}, q - {z}, {})
  }

  const Acknowledgers := Choice(true, false, false, false, false)
  const Heir := Choice(false, true, false, false, false)
  const Writers := Choice(false, true, true, false, false)
  const Everyone := Choice(true, true, true, true, true)

  lemma Picks(p: PolicyWithCohort, r: set<string>, z: string, q: set<string>)
    requires r <= Keys(p.cohort) && q <= Keys(p.cohort) && z in q && r !! q
    ensures var g := Parties(p, r, z, q);
            && Pick(g, Acknowledgers) == r && Pick(g, Heir) == {z} && Pick(g, Writers) == q
            && Pick(g, Everyone) == Keys(p.cohort)
  {
    hide Keys;
  }

  /** The policies in force and the rounds below. */
  lemma Passing(d: PolicyWithCohort, p: PolicyWithCohort, r: set<string>, q: set<string>)
    requires Loosening(d, p) && Quorum(d, r) && Frozen(d, r) && Quorum(p, q)
    ensures WriteQuorum(Proposed(d, p), r) && WriteQuorum(Opened(d, p), q) && WriteQuorum(Written(d, p), q)
    ensures Froze(PositionAt(Proposed(d, p)), r) && Froze(PositionAt(Loosened(d, p)), Keys(p.cohort))
    ensures MayPropose(RuleFor(p, RuleNumber(2, 0)), RoundOf(2, RuleNumber(1, 1)), Loosened(d, p), Keys(p.cohort))
    ensures MayPropose(RuleFor(p, RuleNumber(3, 0)), RoundOf(3, RuleNumber(1, 1)), Proposed(d, p), r)
  {
    hide PositionAt, RuleFor, PolicyOf, InForce, Keys, Frozen, Quorum, BuildPolicyTransition, Satisfies, MayPropose,
      DuplicateFree;
    Positions(d, p);
    LosingRuleNumbers(d, p);
    RuleForMeans(d, RuleNumber(1, 0));
    RuleForMeans(p, RuleNumber(1, 1));
    RuleForMeans(p, RuleNumber(2, 0));
    SameIsLoosening(p);
    QuorumFinishes(d, p, r);
    WholeCohort(p, q);
    LooserQuorum(d, p, r);
    MayProposeSame(p, 2, RuleNumber(1, 1), Loosened(d, p), Keys(p.cohort), RuleNumber(0, 0));
    MayProposeSame(p, 3, RuleNumber(1, 1), Proposed(d, p), r, RuleNumber(1, 1));
  }

  lemma QuorumFinishes(d: PolicyWithCohort, p: PolicyWithCohort, r: set<string>)
    requires Loosening(d, p) && Quorum(d, r)
    ensures CanFinish(d, p, r)
  {
    hide Keys, Satisfies;
    assert r * Keys(d.cohort) == r;
  }

  lemma WholeCohort(p: PolicyWithCohort, q: set<string>)
    requires Quorum(p, q)
    ensures Frozen(p, Keys(p.cohort)) && Satisfies(p.policy, Keys(p.cohort) * Keys(p.cohort))
  {
    hide Keys;
    var all := Keys(p.cohort);
    assert all * all == all && all - all == {};
    SatisfiesMonotone(p.policy, q, all);
    var k := QuorumMember(p, q);
    assert |all| > 0;
  }

  lemma QuorumMember(p: PolicyWithCohort, nodes: set<string>) returns (k: string)
    requires Quorum(p, nodes)
    ensures k in nodes && k in Keys(p.cohort)
  {
    k :| k in nodes;
  }

  lemma LooserQuorum(d: PolicyWithCohort, p: PolicyWithCohort, r: set<string>)
    requires Loosening(d, p) && Quorum(d, r)
    ensures Satisfies(p.policy, r * Keys(p.cohort)) && r <= Keys(p.cohort)
  {
    hide Keys, Loosening;
    LooseningWidens(d, p);
    assert r * Keys(p.cohort) == r;
  }

  lemma LogSteps(d: PolicyWithCohort, p: PolicyWithCohort)
    ensures Decided(d) + [Propose(RuleFor(p, RuleNumber(1, 1)))] == Proposed(d, p)
    ensures Proposed(d, p) + [Decide] == Loosened(d, p)
    ensures Loosened(d, p) + [Propose(RuleFor(p, RuleNumber(2, 0)))] == Opened(d, p)
    ensures Opened(d, p) + [Decide] == Established(d, p)
    ensures Established(d, p) + [Write(7)] == Written(d, p)
  {
  }

  /** What the leaders tell their followers. */
  lemma Tells(d: PolicyWithCohort, p: PolicyWithCohort)
    ensures Delivered(FirstLeader(d, Proposed(d, p)), true, PositionAt(Decided(d)))
    ensures Delivered(FirstLeader(d, Loosened(d, p)), true, PositionAt(Decided(d)))
    ensures forall log :: Delivered(SecondLeader(d, p, log), false, PositionAt(Opened(d, p)))
  {
    hide PositionAt, RuleFor;
    Positions(d, p);
    LosingRuleNumbers(d, p);
    assert Proposed(d, p)[..2] == Decided(d) && Loosened(d, p)[..2] == Decided(d);
  }

  /** The looser rule is decided, and only `z` learns of it. */
  lemma RuleIsLoosened(d: PolicyWithCohort, p: PolicyWithCohort, r: set<string>, z: string, q: set<string>)
    returns (run: Run)
    requires Loosening(d, p) && Quorum(d, r) && Frozen(d, r) && Quorum(p, q) && r !! q && z in q
    ensures var c := Cell(None, Decided(d), 0);
            Runs(run, State(Grouped(Parties(p, r, z, q),
                                    Cells(Cell(None, Proposed(d, p), 0), Cell(None, Loosened(d, p), 0), c, c, c)),
                            [FirstLeader(d, Loosened(d, p))]))
  {
    hide PositionAt, RuleFor, Valid, WriteQuorum, Froze, MayPropose, Keys, Loosening, Frozen, Decided, Proposed,
      Loosened, Opened, Established, Written, Pick, Grouped;
    Positions(d, p);
    LosingRuleNumbers(d, p);
    Passing(d, p, r, q);
    LooserQuorum(d, p, r);
    Picks(p, r, z, q);
    LogSteps(d, p);
    Tells(d, p);
    hide Delivered, Quorum;
    var g, c := Parties(p, r, z, q), Cell(None, Decided(d), 0);
    assert Decided(d) == [Propose(RuleFor(d, RuleNumber(1, 0))), Decide] by { DecidedIs(d); }
    run := GroupsBegin(g, RuleFor(d, RuleNumber(1, 0)), Decided(d));
    run := GroupsWrite(run, g, Cells(c, c, c, c, c), [FirstLeader(d, Decided(d))], 0,
                       Propose(RuleFor(p, RuleNumber(1, 1))));
    assert [FirstLeader(d, Decided(d))][0 := FirstLeader(d, Proposed(d, p))] == [FirstLeader(d, Proposed(d, p))];
    run := GroupsFollow(run, g, Cells(c, c, c, c, c), [FirstLeader(d, Proposed(d, p))], Acknowledgers, 0,
                        PositionAt(Decided(d)));
    var cs := Cells(Cell(None, Proposed(d, p), 0), c, c, c, c);
    run := GroupsDecide(run, g, cs, [FirstLeader(d, Proposed(d, p))], 0, Acknowledgers);
    assert [FirstLeader(d, Proposed(d, p))][0 := FirstLeader(d, Loosened(d, p))] == [FirstLeader(d, Loosened(d, p))];
    run := GroupsFollow(run, g, cs, [FirstLeader(d, Loosened(d, p))], Heir, 0, PositionAt(Decided(d)));
  }

  lemma DecidedIs(d: PolicyWithCohort)
    ensures Decided(d) == [Propose(RuleFor(d, RuleNumber(1, 0))), Decide]
  {
  }

  /** A round of the whole new cohort promotes `z`, which takes a client's write that `q` acknowledges. */
  lemma WriteIsMade(d: PolicyWithCohort, p: PolicyWithCohort, r: set<string>, z: string, q: set<string>)
    returns (run: Run)
    requires Loosening(d, p) && Quorum(d, r) && Frozen(d, r) && Quorum(p, q) && r !! q && z in q
    ensures var r2 := Some(RoundOf(2, RuleNumber(1, 1)));
            var w, c := Cell(r2, Written(d, p), 1), Cell(r2, Decided(d), 0);
            Runs(run, State(Grouped(Parties(p, r, z, q), Cells(Cell(r2, Proposed(d, p), 0), w, w, c, c)),
                            [FirstLeader(d, Loosened(d, p)), SecondLeader(d, p, Written(d, p))]))
  {
    hide PositionAt, RuleFor, Valid, WriteQuorum, Froze, MayPropose, Keys, Loosening, Frozen, Decided, Proposed,
      Loosened, Opened, Established, Written, Pick, Grouped;
    Positions(d, p);
    LosingRuleNumbers(d, p);
    Passing(d, p, r, q);
    LooserQuorum(d, p, r);
    Picks(p, r, z, q);
    LogSteps(d, p);
    Tells(d, p);
    run := RuleIsLoosened(d, p, r, z, q);
    QuorumContains(p, q, z);
    hide Delivered, Quorum;
    var g, r2, ts := Parties(p, r, z, q), RoundOf(2, RuleNumber(1, 1)), [FirstLeader(d, Loosened(d, p))];
    var c := Cell(None, Decided(d), 0);
    run := GroupsRecruit(run, g, Cells(Cell(None, Proposed(d, p), 0), Cell(None, Loosened(d, p), 0), c, c, c), ts,
                         Everyone, 2, RuleNumber(1, 1));
    var a, c2 := Cell(Some(r2), Proposed(d, p), 0), Cell(Some(r2), Decided(d), 0);
    var cs := Cells(a, Cell(Some(r2), Loosened(d, p), 0), c2, c2, c2);
    run := GroupsPromote(run, g, cs, ts, Everyone, 2, RuleNumber(1, 1), z, Loosened(d, p),
                         RuleFor(p, RuleNumber(2, 0)));
    ts := [FirstLeader(d, Loosened(d, p)), SecondLeader(d, p, Loosened(d, p))];
    run := GroupsWrite(run, g, cs, ts, 1, Propose(RuleFor(p, RuleNumber(2, 0))));
    ts := ts[1 := SecondLeader(d, p, Opened(d, p))];
    run := GroupsFollow(run, g, cs, ts, Writers, 1, PositionAt(Opened(d, p)));
    var o := Cell(Some(r2), Opened(d, p), 1);
    run := GroupsDecide(run, g, Cells(a, o, o, c2, c2), ts, 1, Writers);
    ts := ts[1 := SecondLeader(d, p, Established(d, p))];
    run := GroupsWrite(run, g, Cells(a, o, o, c2, c2), ts, 1, Write(7));
    ts := ts[1 := SecondLeader(d, p, Written(d, p))];
    run := GroupsFollow(run, g, Cells(a, o, o, c2, c2), ts, Writers, 1, PositionAt(Opened(d, p)));
  }

  lemma QuorumContains(p: PolicyWithCohort, nodes: set<string>, k: string)
    requires Quorum(p, nodes) && k in nodes
    ensures k in Keys(p.cohort)
  {
  }

  function Leaders(d: PolicyWithCohort, p: PolicyWithCohort): seq<Tenure> {
    [FirstLeader(d, Loosened(d, p)), SecondLeader(d, p, Written(d, p)), ThirdLeader(d, p)]
  }

  /** A round of `r` at the next term still finds the looser rule undecided. */
  lemma WriteIsLost(d: PolicyWithCohort, p: PolicyWithCohort, r: set<string>, z: string, q: set<string>)
    returns (run: Run, s: State)
    requires Loosening(d, p) && Quorum(d, r) && Frozen(d, r) && Quorum(p, q) && r !! q && z in q
    ensures Runs(run, s) && s.tenures == Leaders(d, p) && HoldNow(s, 1, Written(d, p), q)
  {
    hide PositionAt, RuleFor, Valid, WriteQuorum, Froze, MayPropose, Keys, Loosening, Frozen, Decided, Proposed,
      Loosened, Opened, Established, Written, Pick, Grouped;
    Positions(d, p);
    LosingRuleNumbers(d, p);
    Passing(d, p, r, q);
    LooserQuorum(d, p, r);
    Picks(p, r, z, q);
    run := WriteIsMade(d, p, r, z, q);
    var leader := QuorumMember(d, r);
    hide Quorum;
    var g, r2, r3 := Parties(p, r, z, q), RoundOf(2, RuleNumber(1, 1)), RoundOf(3, RuleNumber(1, 1));
    var ts := [FirstLeader(d, Loosened(d, p)), SecondLeader(d, p, Written(d, p))];
    var w, c := Cell(Some(r2), Written(d, p), 1), Cell(Some(r2), Decided(d), 0);
    run := GroupsRecruit(run, g, Cells(Cell(Some(r2), Proposed(d, p), 0), w, w, c, c), ts, Acknowledgers, 3,
                         RuleNumber(1, 1));
    var cs := Cells(Cell(Some(r3), Proposed(d, p), 0), w, w, c, c);
    run := GroupsPromote(run, g, cs, ts, Acknowledgers, 3, RuleNumber(1, 1), leader, Proposed(d, p),
                         RuleFor(p, RuleNumber(3, 0)));
    s := State(Grouped(g, cs), Leaders(d, p));
    GroupsHold(g, cs, Leaders(d, p), Writers, 1, Written(d, p));
  }

  /** A loosening change that is not frozen with its decision: some run loses a durable client write, although every
      round rests on a confirmed configuration and the leader that decided the change wrote nothing under it. */
  lemma UnfrozenChangeLosesAWrite(d: PolicyWithCohort, p: PolicyWithCohort) returns (run: Run, q: set<string>)
    requires Loosening(d, p) && !FreezesProposalToo(d, p)
    ensures Valid(run) && UsesOnly(run, d, p) && ConfirmedRounds(run) && |Tenures(run)| == 3
    ensures Tenures(run)[0].log == Tenures(run)[1].start == Loosened(d, p)
    ensures Durable(run, 1, Written(d, p), q, |run.states| - 1)
    ensures Term(Tenures(run)[1]) < Term(Tenures(run)[2]) && !(Written(d, p) <= Tenures(run)[2].start)
  {
    hide PositionAt, WriteQuorum, Valid, LastRule, RuleFor, Keys, Satisfies, Loosening, UsesOnly, ConfirmedRounds,
      HoldNow, Written, Proposed, Froze, MayPropose, Durable;
    var r', q' :| Finishing(d, r') && Quorum(p, q') && !Meet(r', q');
    q := q';
    var r := r' * Keys(d.cohort);
    assert r * Keys(d.cohort) == r;
    assert Quorum(d, r) && Frozen(d, r) && r !! q;
    var z := QuorumMember(p, q);
    hide Quorum, Frozen;
    var s;
    run, s := WriteIsLost(d, p, r, z, q);
    Passing(d, p, r, q);
    WrittenTerm(d, p);
    HeldIsDurable(run, s, 1, Written(d, p), q);
    LeadersUseOnly(run, d, p);
    LeadersAreConfirmed(run, d, p);
  }

  lemma WrittenTerm(d: PolicyWithCohort, p: PolicyWithCohort)
    ensures LastRule(Written(d, p)).term == 2 && !(Written(d, p) <= Proposed(d, p))
  {
    Positions(d, p);
    LosingRuleNumbers(d, p);
    hide PositionAt, RuleFor;
  }

  lemma LeadersUseOnly(run: Run, d: PolicyWithCohort, p: PolicyWithCohort)
    requires Loosening(d, p) && Tenures(run) == Leaders(d, p)
    ensures UsesOnly(run, d, p)
  {
    assert HasConfig(RuleFor(d, RuleNumber(1, 0)), d) by { RuleHasConfig(d, RuleNumber(1, 0)); }
    assert HasConfig(RuleFor(p, RuleNumber(1, 1)), p) by { RuleHasConfig(p, RuleNumber(1, 1)); }
    assert HasConfig(RuleFor(p, RuleNumber(2, 0)), p) by { RuleHasConfig(p, RuleNumber(2, 0)); }
    assert HasConfig(RuleFor(p, RuleNumber(3, 0)), p) by { RuleHasConfig(p, RuleNumber(3, 0)); }
    hide HasConfig, RuleFor, Loosening;
    forall t, j | 0 <= t < |Tenures(run)| && 0 <= j < |Tenures(run)[t].log| && Tenures(run)[t].log[j].Propose?
      ensures HasConfig(Tenures(run)[t].log[j].rule, d) || HasConfig(Tenures(run)[t].log[j].rule, p)
    {
      assert Tenures(run)[t].log[j] == Written(d, p)[j];
    }
  }

  lemma RuleHasConfig(p: PolicyWithCohort, number: RuleNumber)
    requires DuplicateFree(p)
    ensures HasConfig(RuleFor(p, number), p)
  {
    RuleForMeans(p, number);
    hide Keys;
  }

  lemma LeadersAreConfirmed(run: Run, d: PolicyWithCohort, p: PolicyWithCohort)
    requires Valid(run) && Tenures(run) == Leaders(d, p)
    ensures ConfirmedRounds(run)
  {
    hide Valid, PositionAt, NoWeaker, ComparePoolerPosition, RuleFor, SameConfig, DecidedNumber, LastRule,
      ConfirmedBy;
    Lengths(run);
    forall c | 0 <= c < |run.states| - 1 ensures ConfirmedRound(run, c) {
      var u := |run.states[c].tenures|;
      if u < |run.states[c + 1].tenures| {
        RunGrows(run, c + 1, |run.states| - 1);
        GenesisStart(run, c);
        assert u == 1 || u == 2;
        assert run.states[c + 1].tenures[u].start == Tenures(run)[u].start;
        LeaderIsConfirmed(run, d, p, c, u);
      }
    }
  }

  lemma LeaderIsConfirmed(run: Run, d: PolicyWithCohort, p: PolicyWithCohort, c: nat, u: nat)
    requires Valid(run) && Tenures(run) == Leaders(d, p) && c + 1 < |run.states| && 1 <= u <= 2
    requires |run.states[c].tenures| == u < |run.states[c + 1].tenures|
    ensures Confirmed(run.states[c], Tenures(run)[u].start)
  {
    hide Valid, PositionAt, NoWeaker, ComparePoolerPosition, RuleFor, SameConfig, DecidedNumber, LastRule,
      ConfirmedBy, Froze, Snapshot, CanOpen, StartedAt;
    GenesisStart(run, c);
    RunGrows(run, c, |run.states| - 1);
    EveryStateOk(run, c);
    var t := run.states[c].tenures[0];
    assert TenureOk(t, Genesis(run), true);
    if u == 1 {
      var b := StartWrittenBy(run, c, u);
      RunGrows(run, b, c);
      assert Loosened(d, p) <= t.log;
      LooserIsConfirmed(d, p, t);
      assert ConfirmedBy(t, 3, Loosened(d, p));
    } else {
      StricterIsConfirmed(d, p, t);
      assert ConfirmedBy(t, 1, Proposed(d, p));
    }
  }

  /** The only leadership before the second one wrote what the second starts from. */
  lemma StartWrittenBy(run: Run, c: nat, u: nat) returns (b: nat)
    requires Valid(run) && c + 1 < |run.states| && u == 1 == |run.states[c].tenures| < |run.states[c + 1].tenures|
    requires u < |Tenures(run)|
    ensures b <= c && |run.states[b].tenures| == 1 && Tenures(run)[u].start <= run.states[b].tenures[0].log
  {
    hide Valid, PositionAt, NoWeaker, ComparePoolerPosition, Froze, Snapshot, CanOpen;
    var c', recruits := Started(run, u);
    var k, b': nat :| b' <= c' && Held(run, Tenures(run)[u].start, k, b');
    b := b';
    var v := HeldBy(run, Tenures(run)[u].start, k, b);
    if c' < c { RunGrows(run, c' + 1, c); }
    RunGrows(run, b, c');
    GenesisStart(run, b);
    if c < c' { RunGrows(run, c + 1, c'); }
  }

  lemma LooserIsConfirmed(d: PolicyWithCohort, p: PolicyWithCohort, t: Tenure)
    requires Term(t) == 1 && Loosened(d, p) <= t.log
    ensures ConfirmedBy(t, 3, Loosened(d, p))
  {
    Positions(d, p);
    RuleForMeans(p, RuleNumber(1, 1));
    var wal := Loosened(d, p);
    assert t.log[..3] == wal[..3] == Proposed(d, p) && t.log[3] == wal[3] && wal[..4] == wal;
    hide PositionAt, RuleFor, PolicyOf, Keys;
    LosingRuleNumbers(d, p);
  }

  lemma StricterIsConfirmed(d: PolicyWithCohort, p: PolicyWithCohort, t: Tenure)
    requires Term(t) == 1 && Decided(d) <= t.log
    ensures ConfirmedBy(t, 1, Proposed(d, p))
  {
    Positions(d, p);
    RuleForMeans(d, RuleNumber(1, 0));
    var first, wal := RuleFor(d, RuleNumber(1, 0)), Proposed(d, p);
    assert t.log[..1] == Decided(d)[..1] == [Propose(first)] && [Propose(first)][..0] == [];
    assert t.log[1] == Decided(d)[1];
    assert PositionAt(t.log[..1]) == RulePosition(None, Some(first));
    assert wal[..2] == Decided(d) && wal[..3] == wal && wal[..1] == [Propose(first)];
    hide PositionAt, RuleFor, PolicyOf, Keys;
    LosingRuleNumbers(d, p);
  }

  // ---------------------------------------------------------------- exactly the safe changes

  /** A loosening change is safe, in every run between the two configurations, exactly when freezing the decision
      freezes the proposal too. */
  lemma LooseningIsSafeExactly(decision: PolicyWithCohort, proposal: PolicyWithCohort)
    requires Loosening(decision, proposal)
    ensures SafeBetween(decision, proposal) <==> FreezesProposalToo(decision, proposal)
  {
    hide FreezesProposalToo, Loosening, Valid, UsesOnly, ConfirmedRounds, Durable, Written;
    if FreezesProposalToo(decision, proposal) {
      FrozenChangeIsSafe(decision, proposal);
    } else {
      var run, q := UnfrozenChangeLosesAWrite(decision, proposal);
      assert !Preserves(run);
    }
  }

  /** For AT_LEAST_N that is a count of nodes. */
  lemma LooseningIsACount(decision: PolicyWithCohort, proposal: PolicyWithCohort)
    requires Loosening(decision, proposal) && decision.policy.AtLeastN?
    ensures proposal.policy.AtLeastN?
    ensures SafeBetween(decision, proposal) <==>
            (decision.policy.n > |decision.cohort|
             || |proposal.cohort| < proposal.policy.n + FewestRecruits(|decision.cohort|, decision.policy.n))
  {
    hide FreezesProposalToo, SafeBetween, BuildPolicyTransition, Keys;
    LooseningWidens(decision, proposal);
    LooseningIsSafeExactly(decision, proposal);
    LooseningFreezesProposal(decision, proposal);
  }

  /** Adding a node is safe, whatever rounds propose, exactly when N is a strict majority of the grown cohort. */
  lemma AddingANodeIsSafeExactly(decision: PolicyWithCohort, proposal: PolicyWithCohort)
    requires DuplicateFree(decision) && DuplicateFree(proposal)
    requires decision.policy.AtLeastN? && decision.policy == proposal.policy
    requires |proposal.cohort| == |decision.cohort| + 1 && Keys(decision.cohort) <= Keys(proposal.cohort)
    ensures SafeWriting(decision, proposal) <==> 2 * decision.policy.n > |proposal.cohort|
    ensures SafeBetween(decision, proposal) <==> 2 * decision.policy.n > |proposal.cohort|
  {
    hide FreezesProposalToo, BuildPolicyTransition, Keys, Valid, HasConfig, Preserves;
    GrowthByOneIsFrozen(decision, proposal);
    LooseningIsSafeExactly(decision, proposal);
    if 2 * decision.policy.n > |proposal.cohort| {
      MajoritiesProtect(decision, proposal);
      CompatiblePairIsSafe(decision, proposal);
    } else {
      var run :| Valid(run) && UsesOnly(run, decision, proposal) && !Preserves(run);
      assert WritesOnly(run, decision, proposal);
    }
  }

  lemma MajoritiesProtect(a: PolicyWithCohort, b: PolicyWithCohort)
    requires a.policy.AtLeastN? && a.policy == b.policy && Keys(a.cohort) <= Keys(b.cohort)
    requires |Keys(b.cohort)| == |Keys(a.cohort)| + 1 < 2 * a.policy.n
    ensures Compatible({a, b})
  {
    hide Keys;
    var ka, kb := Keys(a.cohort), Keys(b.cohort);
    assert ka - kb == {} && ka - ka == {} && kb - kb == {} && |kb - ka| == 1 by { assert kb == ka + (kb - ka); }
    CompatibleIsCounting({a, b});
  }
}
