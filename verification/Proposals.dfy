/** From the statuses a coordinator collected to a proposal: discover the outgoing rule, revoke it,
    check it can be finished, pick eligible leaders, and validate what the builder proposes. */
module Proposals {
  import opened Types
  import opened Collections
  import opened Compare
  import opened Policy
  import opened Durability
  import opened Revocation

  datatype Error =
    | NoneAccepted | EmptyList | NoValidPosition | OutgoingRuleRequired
    | InconsistentDiscovery | OutgoingMismatch
    | InvalidPolicy(PolicyError) | InsufficientRecruitment | CannotFinalize
    | NoEligibleLeader | BuilderError | NilProposal
    | RevocationMismatch | SkipQuorumNotCertified | NoLeaderId | LeaderNotEligible | NoProposedRule
    | DecisionMismatch | NoCoordinatorId | NoCreationTime | WrongTerm | CohortOrPolicyChanged
    | CannotAchieveDurability | InsufficientProposedCohort
    | CertNeedsOutgoingRule | CertNeedsFrozenLsn

  /** How the outgoing rule is revoked: by recruiting its cohort, or by an external cert. */
  datatype Basis = ByRecruitment | ByCert(frozenLsn: nat)

  datatype OutgoingRule = OutgoingRule(
    recruited: seq<ConsensusStatus>, position: Option<RulePosition>, basis: Basis)

  datatype RecruitmentResult = RecruitmentResult(
    revocation: Option<TermRevocation>,
    outgoingRule: Option<ShardRule>,
    outgoingRuleDecided: bool,
    eligible: seq<ConsensusStatus>,
    outgoing: OutgoingRule)

  datatype BuilderOutcome = BuilderFailed | BuiltNothing | Built(proposal: CoordinatorProposal)

  type Builder = RecruitmentResult -> BuilderOutcome

  // ---------------------------------------------------------------- filters

  function CarriesRevocation(rev: Option<TermRevocation>): ConsensusStatus -> bool {
    (cs: ConsensusStatus) => cs.revocation == rev
  }

  function CouldAccept(rev: Option<TermRevocation>): ConsensusStatus -> bool {
    (cs: ConsensusStatus) => ValidateRevocation(cs, rev).Ok?
  }

  predicate HasValidPosition(cs: ConsensusStatus) {
    !IsUnset(Numbers(PositionOf(cs.current)).decision) && LsnOf(cs.current).Some?
  }

  function InCohort(cohort: seq<ID>): ConsensusStatus -> bool {
    (cs: ConsensusStatus) => cs.id.Some? && MemberOf(cohort, cs.id.value)
  }

  function IDsOf(statuses: seq<ConsensusStatus>): (r: seq<ID>)
    ensures forall id :: id in r <==> exists cs :: cs in statuses && cs.id == Some(id)
  {
    if statuses == [] then []
    else
      var init, last := statuses[..|statuses| - 1], statuses[|statuses| - 1];
      assert statuses == init + [last];
      IDsOf(init) + (if last.id.Some? then [last.id.value] else [])
  }

  function StatusKeys(statuses: seq<ConsensusStatus>): set<string> {
    set cs | cs in statuses && cs.id.Some? :: KeyOf(cs.id)
  }

  /** The recruited members of a cohort. */
  function RecruitedIn(cohort: seq<ID>, statuses: seq<ConsensusStatus>): seq<ID> {
    IDsOf(Filter(statuses, InCohort(cohort)))
  }

  lemma RecruitedInKeys(cohort: seq<ID>, statuses: seq<ConsensusStatus>)
    ensures Keys(RecruitedIn(cohort, statuses)) == StatusKeys(statuses) * Keys(cohort)
  {
    var members := Filter(statuses, InCohort(cohort));
    forall k | k in StatusKeys(statuses) * Keys(cohort) ensures k in Keys(IDsOf(members)) {
      var cs :| cs in statuses && cs.id.Some? && KeyOf(cs.id) == k;
      assert cs in members;
      assert cs.id.value in IDsOf(members);
    }
  }

  // ---------------------------------------------------------------- deduplication

  /** The most advanced status of every node; entries without an ID are dropped. */
  function BestByKey(statuses: seq<ConsensusStatus>): (m: map<string, ConsensusStatus>)
    ensures m.Keys == StatusKeys(statuses)
    ensures forall k :: k in m ==> m[k] in statuses && m[k].id.Some? && KeyOf(m[k].id) == k
  {
    if statuses == [] then map[]
    else
      var init, last := statuses[..|statuses| - 1], statuses[|statuses| - 1];
      assert statuses == init + [last];
      var best := BestByKey(init);
      if last.id.Some? && (KeyOf(last.id) !in best
                           || ComparePoolerPosition(last.current, best[KeyOf(last.id)].current) > 0)
      then best[KeyOf(last.id) := last] else best
  }

  function Deduplicate(statuses: seq<ConsensusStatus>): seq<ConsensusStatus> { SortedValues(BestByKey(statuses)) }

  method DeduplicateStatuses(statuses: seq<ConsensusStatus>) returns (r: seq<ConsensusStatus>)
    ensures r == Deduplicate(statuses)
  {
    var best: map<string, ConsensusStatus> := map[];
    for i := 0 to |statuses|
      invariant best == BestByKey(statuses[..i])
    {
      assert statuses[..i + 1][..i] == statuses[..i];
      var cs := statuses[i];
      if cs.id.Some? {
        var key := KeyOf(cs.id);
        if key !in best || ComparePoolerPosition(cs.current, best[key].current) > 0 {
          best := best[key := cs];
        }
      }
    }
    assert statuses[..|statuses|] == statuses;
    r := SortedValues(best);
  }

  lemma {:induction false} BestByKeyIsBest(statuses: seq<ConsensusStatus>, cs: ConsensusStatus)
    requires cs in statuses && cs.id.Some?
    ensures ComparePoolerPosition(BestByKey(statuses)[KeyOf(cs.id)].current, cs.current) >= 0
  {
    hide ComparePoolerPosition, KeyOf;
    var init, last, k := statuses[..|statuses| - 1], statuses[|statuses| - 1], KeyOf(cs.id);
    assert statuses == init + [last];
    PoolerCompareFlip(last.current, last.current);
    if cs in init {
      BestByKeyIsBest(init, cs);
      var before, after := BestByKey(init)[k].current, BestByKey(statuses)[k].current;
      PoolerCompareFlip(before, before);
      PoolerCompareTransitive(after, before, cs.current);
    } else if last.id.Some? && KeyOf(last.id) in BestByKey(init) {
      PoolerCompareFlip(last.current, BestByKey(init)[KeyOf(last.id)].current);
    }
  }

  /** One status per node: taken from the input, and no status of that node is ahead of it. */
  lemma DeduplicateKeepsTheBest(statuses: seq<ConsensusStatus>)
    ensures StatusKeys(Deduplicate(statuses)) == StatusKeys(statuses)
    ensures forall cs :: cs in Deduplicate(statuses) ==> cs in statuses && cs.id.Some?
    ensures forall a, b :: a in Deduplicate(statuses) && b in Deduplicate(statuses) ==>
              KeyOf(a.id) == KeyOf(b.id) ==> a == b
    ensures forall a, cs :: a in Deduplicate(statuses) && cs in statuses && cs.id.Some? ==>
              KeyOf(cs.id) == KeyOf(a.id) ==> ComparePoolerPosition(a.current, cs.current) >= 0
  {
    hide ComparePoolerPosition, KeyOf;
    var best := BestByKey(statuses);
    forall k | k in best ensures k in StatusKeys(Deduplicate(statuses)) { assert best[k] in Deduplicate(statuses); }
    forall a, cs | a in Deduplicate(statuses) && cs in statuses && cs.id.Some? && KeyOf(cs.id) == KeyOf(a.id)
      ensures ComparePoolerPosition(a.current, cs.current) >= 0
    {
      BestByKeyIsBest(statuses, cs);
    }
  }

  /** Where the status kept for a node is: every status of that node listed before it is strictly behind it. */
  ghost predicate FirstBest(statuses: seq<ConsensusStatus>, k: string, i: int) {
    && 0 <= i < |statuses| && statuses[i].id.Some? && KeyOf(statuses[i].id) == k
    && forall j :: 0 <= j < i && statuses[j].id.Some? && KeyOf(statuses[j].id) == k ==>
         ComparePoolerPosition(statuses[i].current, statuses[j].current) > 0
  }

  /** Among equally advanced statuses of a node the first is kept. */
  lemma DeduplicateKeepsTheFirst(statuses: seq<ConsensusStatus>, k: string) returns (i: int)
    requires k in StatusKeys(statuses)
    ensures FirstBest(statuses, k, i) && statuses[i] in Deduplicate(statuses)
  {
    hide ComparePoolerPosition, KeyOf;
    i := BestIsFirst(statuses, k);
  }

  lemma {:induction false} BestIsFirst(statuses: seq<ConsensusStatus>, k: string) returns (i: int)
    requires k in BestByKey(statuses)
    ensures FirstBest(statuses, k, i) && statuses[i] == BestByKey(statuses)[k]
  {
    hide ComparePoolerPosition, KeyOf;
    var init, last := statuses[..|statuses| - 1], statuses[|statuses| - 1];
    assert statuses == init + [last];
    if k in BestByKey(init) && BestByKey(init)[k] == BestByKey(statuses)[k] {
      i := BestIsFirst(init, k);
    } else {
      i := |init|;
      forall j | 0 <= j < i && init[j].id.Some? && KeyOf(init[j].id) == k
        ensures ComparePoolerPosition(last.current, init[j].current) > 0
      {
        assert init[j] in init;
        BestByKeyIsBest(init, init[j]);
        StrictlyAhead(last.current, BestByKey(init)[k].current, init[j].current);
      }
    }
  }

  lemma StrictlyAhead(a: Option<PoolerPosition>, b: Option<PoolerPosition>, c: Option<PoolerPosition>)
    requires ComparePoolerPosition(a, b) > 0 && ComparePoolerPosition(b, c) >= 0
    ensures ComparePoolerPosition(a, c) > 0
  {
  }

  // ---------------------------------------------------------------- discovery

  datatype Discovery = Discovery(position: Option<RulePosition>, recording: seq<ConsensusStatus>)

  /** The highest position recorded, and every status recording it. */
  function Discover(statuses: seq<ConsensusStatus>): Discovery {
    if statuses == [] then Discovery(None, [])
    else
      var d, last := Discover(statuses[..|statuses| - 1]), statuses[|statuses| - 1];
      var position := PositionOf(last.current);
      if d.position.None? || CompareRulePosition(position, d.position) > 0 then Discovery(position, [last])
      else if CompareRulePosition(position, d.position) == 0 then Discovery(d.position, d.recording + [last])
      else d
  }

  /** Statuses at an equal position must agree on its content. */
  function DiscoverOutgoingRulePosition(statuses: seq<ConsensusStatus>): Result<Discovery, Error> {
    var d := Discover(statuses);
    if d.recording == [] then Ok(Discovery(None, []))
    else if exists cs :: cs in d.recording[1..] && PositionOf(cs.current) != d.position then Err(InconsistentDiscovery)
    else Ok(d)
  }

  method ScanOutgoingRulePosition(statuses: seq<ConsensusStatus>) returns (r: Result<Discovery, Error>)
    ensures r == DiscoverOutgoingRulePosition(statuses)
  {
    var position, recording := None, [];
    for i := 0 to |statuses|
      invariant Discovery(position, recording) == Discover(statuses[..i])
    {
      assert statuses[..i + 1][..i] == statuses[..i];
      var next := PositionOf(statuses[i].current);
      if position.None? || CompareRulePosition(next, position) > 0 {
        position, recording := next, [statuses[i]];
      } else if CompareRulePosition(next, position) == 0 {
        recording := recording + [statuses[i]];
      }
    }
    assert statuses[..|statuses|] == statuses;
    if |recording| == 0 {
      return Ok(Discovery(None, []));
    }
    for i := 1 to |recording|
      invariant forall j :: 1 <= j < i ==> PositionOf(recording[j].current) == position
    {
      if PositionOf(recording[i].current) != position {
        assert recording[i] == recording[1..][i - 1];
        return Err(InconsistentDiscovery);
      }
    }
    return Ok(Discovery(position, recording));
  }

  lemma DiscoverStep(statuses: seq<ConsensusStatus>)
    requires statuses != []
    ensures var d, last := Discover(statuses[..|statuses| - 1]), statuses[|statuses| - 1];
            var position := PositionOf(last.current);
            Discover(statuses) ==
            if d.position.None? || CompareRulePosition(position, d.position) > 0 then Discovery(position, [last])
            else if CompareRulePosition(position, d.position) == 0 then Discovery(d.position, d.recording + [last])
            else d
    ensures Discover([]) == Discovery(None, [])
  {
    hide CompareRulePosition;
  }

  /** Discovery finds the maximum: some status records it and no status is ahead of it. */
  lemma {:induction false} DiscoverIsMaximum(statuses: seq<ConsensusStatus>)
    requires statuses != [] && forall cs :: cs in statuses ==> HasValidPosition(cs)
    ensures Discover(statuses).position.Some?
    ensures exists cs :: cs in statuses && PositionOf(cs.current) == Discover(statuses).position
    ensures forall cs :: cs in statuses ==>
              CompareRulePosition(PositionOf(cs.current), Discover(statuses).position) <= 0
    ensures Discover(statuses).recording != []
  {
    hide CompareRulePosition, HasValidPosition, Discover;
    var init, last := statuses[..|statuses| - 1], statuses[|statuses| - 1];
    assert statuses == init + [last];
    DiscoverStep(statuses);
    var d, mine := Discover(statuses).position, PositionOf(last.current);
    assert last in statuses && mine.Some? by { ValidIsSome(last); }
    CompareFlip(mine, mine);
    if init != [] {
      DiscoverIsMaximum(init);
      var before := Discover(init).position;
      assert d == if CompareRulePosition(mine, before) > 0 then mine else before;
      forall cs | cs in statuses ensures CompareRulePosition(PositionOf(cs.current), d) <= 0 {
        StillBehind(PositionOf(cs.current), mine, before, d);
      }
      var cs :| cs in init && PositionOf(cs.current) == before;
      assert cs in statuses;
    }
  }

  lemma ValidIsSome(cs: ConsensusStatus)
    requires HasValidPosition(cs)
    ensures PositionOf(cs.current).Some?
  {
  }

  lemma StillBehind(p: Option<RulePosition>, mine: Option<RulePosition>, before: Option<RulePosition>,
                    d: Option<RulePosition>)
    requires CompareRulePosition(p, before) <= 0 || p == mine
    requires d == if CompareRulePosition(mine, before) > 0 then mine else before
    ensures CompareRulePosition(p, d) <= 0
  {
  }

  /** Exactly the statuses at the discovered position record it. */
  lemma {:induction false} RecordingIsExact(statuses: seq<ConsensusStatus>)
    requires forall cs :: cs in statuses ==> HasValidPosition(cs)
    ensures forall cs :: cs in Discover(statuses).recording <==>
              cs in statuses && CompareRulePosition(PositionOf(cs.current), Discover(statuses).position) == 0
    ensures statuses != [] ==>
              && Discover(statuses).recording != []
              && PositionOf(Discover(statuses).recording[0].current) == Discover(statuses).position
  {
    if statuses != [] {
      hide CompareRulePosition, HasValidPosition, Discover;
      var init, last := statuses[..|statuses| - 1], statuses[|statuses| - 1];
      assert statuses == init + [last];
      DiscoverStep(statuses);
      RecordingIsExact(init);
      var mine, before := PositionOf(last.current), Discover(init).position;
      CompareFlip(mine, mine);
      if init != [] {
        DiscoverIsMaximum(init);
        if CompareRulePosition(mine, before) > 0 {
          forall cs | cs in init ensures CompareRulePosition(PositionOf(cs.current), mine) != 0 {
            BehindIsNotEqual(PositionOf(cs.current), before, mine);
          }
        }
      }
    }
  }

  lemma BehindIsNotEqual(a: Option<RulePosition>, b: Option<RulePosition>, c: Option<RulePosition>)
    requires CompareRulePosition(a, b) <= 0 && CompareRulePosition(c, b) > 0
    ensures CompareRulePosition(a, c) != 0
  {
  }

  /** Statuses that compare equal to a position record that very position. */
  ghost predicate Agree(statuses: seq<ConsensusStatus>, pos: Option<RulePosition>) {
    forall cs :: cs in statuses && CompareRulePosition(PositionOf(cs.current), pos) == 0 ==>
      PositionOf(cs.current) == pos
  }

  /** Discovery succeeds exactly when all statuses at the highest position agree on its content. */
  lemma DiscoveryIsConsistent(statuses: seq<ConsensusStatus>)
    requires statuses != [] && forall cs :: cs in statuses ==> HasValidPosition(cs)
    ensures var top := Discover(statuses).position;
            DiscoverOutgoingRulePosition(statuses).Ok? <==> Agree(statuses, top)
  {
    hide CompareRulePosition, HasValidPosition, Discover;
    RecordingIsExact(statuses);
    var recording := Discover(statuses).recording;
    assert recording == [recording[0]] + recording[1..];
  }

  /** The outgoing rule must be the one the revocation expects. */
  function DiscoverOutgoingRule(recruited: seq<ConsensusStatus>, expected: RuleNumber, basis: Basis)
    : Result<OutgoingRule, Error>
  {
    match DiscoverOutgoingRulePosition(recruited)
    case Err(e) => Err(e)
    case Ok(d) =>
      if CompareRuleNumbers(NumberOf(PossiblyUndecidedRule(d.position)), expected) == 0
      then Ok(OutgoingRule(recruited, d.position, basis)) else Err(OutgoingMismatch)
  }

  // ---------------------------------------------------------------- revoke and finalize

  function PolicyOf(rule: Option<ShardRule>): Result<Policy, PolicyError> {
    ParsePolicy(if rule.Some? then rule.value.policy else None)
  }

  function CohortOf(rule: Option<ShardRule>): seq<ID> { if rule.Some? then rule.value.cohort else [] }

  /** The policy and cohort a rule puts in force. */
  function InForce(rule: Option<ShardRule>): PolicyWithCohort
    requires PolicyOf(rule).Ok?
  {
    PolicyWithCohort(PolicyOf(rule).value, CohortOf(rule))
  }

  function Revoke(o: OutgoingRule): Result<OutgoingRule, Error> {
    if o.basis.ByCert? then Ok(o)
    else
      var decision := DecisionOf(o.position);
      match PolicyOf(decision)
      case Err(e) => Err(InvalidPolicy(e))
      case Ok(policy) =>
        if CheckSufficientRecruitment(policy, CohortOf(decision), RecruitedIn(CohortOf(decision), o.recruited))
        then Ok(o) else Err(InsufficientRecruitment)
  }

  function CheckRecruitsCanFinalizeProposal(o: OutgoingRule): Result<OutgoingRule, Error> {
    if IsRuleDecided(o.position) || o.basis.ByCert? then Ok(o)
    else
      var decision, proposal := DecisionOf(o.position), PossiblyUndecidedRule(o.position);
      if PolicyOf(decision).Err? then Err(InvalidPolicy(PolicyOf(decision).error))
      else if PolicyOf(proposal).Err? then Err(InvalidPolicy(PolicyOf(proposal).error))
      else match BuildPolicyTransition(InForce(decision), InForce(proposal))
        case Err(_) => Err(CannotFinalize)
        case Ok(t) =>
          if SatisfiedBy(t.both.policy, RecruitedIn(t.both.cohort, o.recruited)) then Ok(o) else Err(CannotFinalize)
  }

  // ---------------------------------------------------------------- eligible leaders

  function AtPosition(position: Option<RulePosition>): ConsensusStatus -> bool {
    (cs: ConsensusStatus) => CompareRulePosition(PositionOf(cs.current), position) == 0
  }

  datatype Narrowed = Narrowed(bestLsn: nat, leaders: seq<ConsensusStatus>)

  /** The statuses tied at the highest LSN at or above a floor. */
  function Narrow(statuses: seq<ConsensusStatus>, minLsn: nat): Narrowed {
    if statuses == [] then Narrowed(0, [])
    else
      var n, last := Narrow(statuses[..|statuses| - 1], minLsn), statuses[|statuses| - 1];
      match LsnOf(last.current)
      case None => n
      case Some(lsn) =>
        if lsn < minLsn || lsn < n.bestLsn then n
        else if lsn > n.bestLsn then Narrowed(lsn, [last])
        else Narrowed(n.bestLsn, n.leaders + [last])
  }

  method NarrowByLsn(statuses: seq<ConsensusStatus>, minLsn: nat) returns (leaders: seq<ConsensusStatus>)
    ensures leaders == Narrow(statuses, minLsn).leaders
  {
    var bestLsn: nat := 0;
    leaders := [];
    for i := 0 to |statuses|
      invariant Narrowed(bestLsn, leaders) == Narrow(statuses[..i], minLsn)
    {
      assert statuses[..i + 1][..i] == statuses[..i];
      var parsed := LsnOf(statuses[i].current);
      if parsed.None? || parsed.value < minLsn { continue; }
      if parsed.value > bestLsn {
        bestLsn, leaders := parsed.value, [];
      }
      if parsed.value >= bestLsn {
        leaders := leaders + [statuses[i]];
      }
    }
    assert statuses[..|statuses|] == statuses;
  }

  /** Narrowing keeps exactly the statuses with the highest LSN not below the floor. */
  lemma {:induction false} NarrowIsArgmax(statuses: seq<ConsensusStatus>, minLsn: nat)
    ensures var n := Narrow(statuses, minLsn);
            && (forall cs :: cs in statuses && LsnOf(cs.current).Some? && LsnOf(cs.current).value >= minLsn ==>
                  LsnOf(cs.current).value <= n.bestLsn && n.leaders != [])
            && (n.leaders == [] ==> n.bestLsn == 0)
            && (forall cs :: cs in n.leaders <==>
                  cs in statuses && LsnOf(cs.current) == Some(n.bestLsn) && n.bestLsn >= minLsn)
  {
    if statuses != [] {
      var init, last := statuses[..|statuses| - 1], statuses[|statuses| - 1];
      assert statuses == init + [last];
      NarrowIsArgmax(init, minLsn);
    }
  }

  function EligibleLeaders(o: OutgoingRule): Result<seq<ConsensusStatus>, Error> {
    var minLsn := if o.basis.ByCert? then o.basis.frozenLsn else 0;
    var leaders := Narrow(Filter(o.recruited, AtPosition(o.position)), minLsn).leaders;
    if leaders == [] then Err(NoEligibleLeader) else Ok(leaders)
  }

  function NewRecruitmentResult(rev: Option<TermRevocation>, o: OutgoingRule): Result<RecruitmentResult, Error> {
    match EligibleLeaders(o)
    case Err(e) => Err(e)
    case Ok(leaders) =>
      Ok(RecruitmentResult(rev, PossiblyUndecidedRule(o.position), IsRuleDecided(o.position), leaders, o))
  }

  // ---------------------------------------------------------------- validation

  function ValidateProposal(p: CoordinatorProposal, result: RecruitmentResult, recruited: seq<ID>): Result<(), Error> {
    var certified := result.outgoing.basis.ByCert?;
    if p.revocation != result.revocation then Err(RevocationMismatch)
    else if p.skipOutgoingQuorum && !certified then Err(SkipQuorumNotCertified)
    else if p.leader.None? then Err(NoLeaderId)
    else if !exists cs :: cs in result.eligible && KeyOf(cs.id) == KeyOf(p.leader) then Err(LeaderNotEligible)
    else if p.transition.proposal.None? then Err(NoProposedRule)
    else
      var rule := p.transition.proposal.value;
      if CompareRuleNumbers(NumberOf(p.transition.decision), OutgoingOf(result.revocation)) != 0
      then Err(DecisionMismatch)
      else if rule.coordinator.None? then Err(NoCoordinatorId)
      else if rule.creationTime.None? then Err(NoCreationTime)
      else if rule.number.term != TermOfRevocation(result.revocation) then Err(WrongTerm)
      else match ParsePolicy(rule.policy)
        case Err(e) => Err(InvalidPolicy(e))
        case Ok(policy) =>
          if !result.outgoingRuleDecided && !certified
             && !(SameCohort(rule.cohort, CohortOf(result.outgoingRule))
                  && result.outgoingRule.Some? && rule.policy == result.outgoingRule.value.policy)
          then Err(CohortOrPolicyChanged)
          else if !SatisfiedBy(policy, recruited) then Err(CannotAchieveDurability)
          else if certified && !CheckSufficientRecruitment(policy, rule.cohort, recruited)
          then Err(InsufficientProposedCohort)
          else Ok(())
  }

  // ---------------------------------------------------------------- the pipeline

  /** The statuses that count: one per node, with a recorded decision and a parsable LSN. */
  function Recruits(statuses: seq<ConsensusStatus>): seq<ConsensusStatus> {
    Filter(Deduplicate(statuses), HasValidPosition)
  }

  /** The front of the pipeline: filter by promise, keep one status per node, drop unusable positions. */
  method CollectRecruits(rev: Option<TermRevocation>, statuses: seq<ConsensusStatus>)
    returns (recruits: seq<ConsensusStatus>)
    ensures recruits == Recruits(Filter(statuses, CarriesRevocation(rev)))
    ensures forall cs :: cs in recruits ==>
      cs in statuses && cs.revocation == rev && cs.id.Some? && HasValidPosition(cs)
  {
    var accepted := Select(statuses, CarriesRevocation(rev));
    var distinct := DeduplicateStatuses(accepted);
    recruits := Select(distinct, HasValidPosition);
    DeduplicateKeepsTheBest(accepted);
  }

  /** The outgoing rule the recruits record, revoked and finalizable. */
  function PrepareFrom(rev: Option<TermRevocation>, recruits: seq<ConsensusStatus>, basis: Basis)
    : Result<RecruitmentResult, Error>
  {
    if recruits == [] then Err(NoValidPosition)
    else if rev.None? || rev.value.outgoingRule.None? then Err(OutgoingRuleRequired)
    else match DiscoverOutgoingRule(recruits, rev.value.outgoingRule.value, basis)
      case Err(e) => Err(e)
      case Ok(o) =>
        if Revoke(o).Err? then Err(Revoke(o).error)
        else if CheckRecruitsCanFinalizeProposal(o).Err? then Err(CheckRecruitsCanFinalizeProposal(o).error)
        else NewRecruitmentResult(rev, o)
  }

  function Prepare(rev: Option<TermRevocation>, statuses: seq<ConsensusStatus>, basis: Basis)
    : Result<RecruitmentResult, Error>
  {
    if statuses == [] then Err(EmptyList) else PrepareFrom(rev, Recruits(statuses), basis)
  }

  function BuildProposalCore(rev: Option<TermRevocation>, statuses: seq<ConsensusStatus>, basis: Basis,
                             builder: Builder): Result<CoordinatorProposal, Error>
  {
    match Prepare(rev, statuses, basis)
    case Err(e) => Err(e)
    case Ok(result) =>
      match builder(result)
      case BuilderFailed => Err(BuilderError)
      case BuiltNothing => Err(NilProposal)
      case Built(p) =>
        var recruited := RecruitedIn(CohortOf(p.transition.proposal), result.outgoing.recruited);
        if ValidateProposal(p, result, recruited).Err? then Err(ValidateProposal(p, result, recruited).error)
        else Ok(p)
  }

  function BuildSafeProposal(rev: Option<TermRevocation>, statuses: seq<ConsensusStatus>, builder: Builder)
    : Result<CoordinatorProposal, Error>
  {
    var recruited := Filter(statuses, CarriesRevocation(rev));
    if recruited == [] then Err(NoneAccepted) else BuildProposalCore(rev, recruited, ByRecruitment, builder)
  }

  function CheckProposalPossible(rev: Option<TermRevocation>, statuses: seq<ConsensusStatus>, builder: Builder)
    : Result<(), Error>
  {
    var candidates := Filter(statuses, CouldAccept(rev));
    if candidates == [] then Err(NoneAccepted)
    else match BuildProposalCore(rev, candidates, ByRecruitment, builder)
      case Err(e) => Err(e)
      case Ok(_) => Ok(())
  }

  function NewCertBasis(cert: CertifiedRevocation): Result<Basis, Error> {
    if cert.revocation.None? || cert.revocation.value.outgoingRule.None? then Err(CertNeedsOutgoingRule)
    else if cert.frozenLsn.None? then Err(CertNeedsFrozenLsn)
    else Ok(ByCert(cert.frozenLsn.value))
  }

  function BuildCertifiedProposal(cert: CertifiedRevocation, statuses: seq<ConsensusStatus>, builder: Builder)
    : Result<CoordinatorProposal, Error>
  {
    var recruited := Filter(statuses, CarriesRevocation(cert.revocation));
    if recruited == [] then Err(NoneAccepted)
    else match NewCertBasis(cert)
      case Err(e) => Err(e)
      case Ok(basis) => BuildProposalCore(cert.revocation, recruited, basis, builder)
  }

  // ---------------------------------------------------------------- what a successful round established

  /** The facts every later argument uses about a prepared round. */
  ghost predicate Established(result: RecruitmentResult, rev: Option<TermRevocation>,
                              statuses: seq<ConsensusStatus>, basis: Basis)
  {
    var o := result.outgoing;
    && o == OutgoingRule(Recruits(statuses), Discover(Recruits(statuses)).position, basis)
    && o.recruited != []
    && (exists cs :: cs in o.recruited && PositionOf(cs.current) == o.position)
    && (forall cs :: cs in o.recruited ==> CompareRulePosition(PositionOf(cs.current), o.position) <= 0)
    && Agree(o.recruited, o.position)
    && rev.Some? && rev.value.outgoingRule == Some(NumberOf(PossiblyUndecidedRule(o.position)))
    && result == RecruitmentResult(rev, PossiblyUndecidedRule(o.position), IsRuleDecided(o.position),
                                   result.eligible, o)
    && Revoke(o).Ok? && CheckRecruitsCanFinalizeProposal(o).Ok?
    && EligibleLeaders(o) == Ok(result.eligible)
  }

  lemma PrepareEstablishes(rev: Option<TermRevocation>, statuses: seq<ConsensusStatus>, basis: Basis)
    requires Prepare(rev, statuses, basis).Ok?
    ensures Established(Prepare(rev, statuses, basis).value, rev, statuses, basis)
  {
    hide Deduplicate, Discover, Revoke, CheckRecruitsCanFinalizeProposal, EligibleLeaders, CompareRulePosition;
    DiscoverIsMaximum(Recruits(statuses));
    DiscoveryIsConsistent(Recruits(statuses));
  }

  /** A built proposal came out of a prepared round and passed validation against it. */
  lemma BuiltFromPrepared(rev: Option<TermRevocation>, statuses: seq<ConsensusStatus>, basis: Basis, builder: Builder)
    returns (result: RecruitmentResult)
    requires BuildProposalCore(rev, statuses, basis, builder).Ok?
    ensures Prepare(rev, statuses, basis) == Ok(result) && Established(result, rev, statuses, basis)
    ensures var p := BuildProposalCore(rev, statuses, basis, builder).value;
            builder(result) == Built(p)
            && ValidateProposal(p, result, RecruitedIn(CohortOf(p.transition.proposal), result.outgoing.recruited)).Ok?
  {
    hide ValidateProposal, Prepare, Established;
    PrepareEstablishes(rev, statuses, basis);
    result := Prepare(rev, statuses, basis).value;
  }
}
