/** Term revocations: a node's promise, when it may be given, what it forbids, and how a
    coordinator authors one. */
module Revocation {
  import opened Types
  import opened Collections
  import opened Compare

  // ---------------------------------------------------------------- what a promise forbids

  function TermOfRevocation(rev: Option<TermRevocation>): nat {
    if rev.Some? then rev.value.revokedBelowTerm else 0
  }

  function OutgoingOf(rev: Option<TermRevocation>): RuleNumber {
    if rev.Some? then NumberOrUnset(rev.value.outgoingRule) else UNSET
  }

  /** Whether a promise forbids applying a position. */
  predicate IsRuleRevoked(pos: Option<RulePosition>, rev: Option<TermRevocation>) {
    var revokedBelow, outgoing, n := TermOfRevocation(rev), OutgoingOf(rev), Numbers(pos);
    if revokedBelow == 0 || IsUnset(outgoing) || n.decision.term >= revokedBelow then false
    else
      var cmp := CompareRuleNumbers(n.decision, outgoing);
      if cmp > 0 then false
      else if cmp == 0 then revokedBelow > n.proposal.term
      else true
  }

  /** A promise that forbids a position forbids everything behind it. */
  lemma RevokedIsDownwardClosed(a: Option<RulePosition>, b: Option<RulePosition>, rev: Option<TermRevocation>)
    requires CompareRulePosition(a, b) <= 0 && IsRuleRevoked(b, rev)
    ensures IsRuleRevoked(a, rev)
  {
  }

  /** A promise forbids exactly the positions of earlier terms that are behind the point where the round's own first
      proposal would stand on the outgoing rule. */
  lemma RevokedIsBelowTheRound(pos: Option<RulePosition>, rev: TermRevocation)
    ensures IsRuleRevoked(pos, Some(rev)) <==>
            && OutgoingOf(Some(rev)) != UNSET && Numbers(pos).decision.term < rev.revokedBelowTerm
            && CompareNumbers(Numbers(pos),
                              NumberPosition(OutgoingOf(Some(rev)), RuleNumber(rev.revokedBelowTerm, 0))) < 0
  {
  }

  predicate IsSelfRevoked(status: ConsensusStatus) {
    var current, known := PositionOf(status.current), PrimaryPosition(ReplicationPrimaryOrNil(status));
    IsRuleRevoked(if CompareRulePosition(known, current) > 0 then known else current, status.revocation)
  }

  /** A node reads as stranded exactly when its promise forbids everything it knows. */
  lemma SelfRevokedMeansEverythingKnownIsRevoked(status: ConsensusStatus)
    ensures IsSelfRevoked(status) <==>
            forall p :: Reports(status, p) ==> IsRuleRevoked(p, status.revocation)
  {
    ReportedPrimary(status);
    OwnPositionIsReported(status);
    var current, known := PositionOf(status.current), PrimaryPosition(ReplicationPrimaryOrNil(status));
    hide ReplicationPrimaryOrNil, Reports, IsRuleRevoked;
    if IsSelfRevoked(status) {
      var highest := if CompareRulePosition(known, current) > 0 then known else current;
      RevokedIsDownwardClosed(current, highest, status.revocation);
      RevokedIsDownwardClosed(known, highest, status.revocation);
    }
  }

  // ---------------------------------------------------------------- giving a promise

  datatype Refusal =
    | NilRevocation | NoCoordinator | NoInitiatedAt | NoOutgoingRule | OutgoingNotBelowTerm
    | UnknownPosition | UnparsableLsn | PositionNotRevoked | BelowRecruitFloor
    | HigherTermAccepted | WeakerOutgoingRule | OtherCoordinator | OtherRound

  /** Whether a node may accept a revocation, and why not. */
  function ValidateRevocation(status: ConsensusStatus, revocation: Option<TermRevocation>): Result<(), Refusal> {
    if revocation.None? then Err(NilRevocation)
    else
      var rev := revocation.value;
      var outgoing := NumberOrUnset(rev.outgoingRule);
      if rev.coordinator.None? || rev.coordinator.value.name == "" then Err(NoCoordinator)
      else if rev.initiatedAt.None? then Err(NoInitiatedAt)
      else if IsUnset(outgoing) then Err(NoOutgoingRule)
      else if outgoing.term >= rev.revokedBelowTerm then Err(OutgoingNotBelowTerm)
      else if status.current.None? then Err(UnknownPosition)
      else if status.current.value.lsn.None? then Err(UnparsableLsn)
      else if !IsRuleRevoked(PositionOf(status.current), revocation) then Err(PositionNotRevoked)
      else if status.recruitBlockedUntil.Some? then Err(BelowRecruitFloor)
      else if status.revocation.None? then Ok(())
      else
        var stored := status.revocation.value;
        if stored.revokedBelowTerm > rev.revokedBelowTerm then Err(HigherTermAccepted)
        else if CompareRuleNumbers(outgoing, NumberOrUnset(stored.outgoingRule)) < 0 then Err(WeakerOutgoingRule)
        else if stored.revokedBelowTerm < rev.revokedBelowTerm then Ok(())
        else if KeyOf(stored.coordinator) != KeyOf(rev.coordinator) then Err(OtherCoordinator)
        else if stored.initiatedAt != rev.initiatedAt then Err(OtherRound)
        else Ok(())
  }

  predicate Accepts(status: ConsensusStatus, rev: TermRevocation) {
    ValidateRevocation(status, Some(rev)).Ok?
  }

  /** Two revocations of the same term belong to one recruitment round. */
  predicate SameRound(a: TermRevocation, b: TermRevocation) {
    && a.revokedBelowTerm == b.revokedBelowTerm
    && KeyOf(a.coordinator) == KeyOf(b.coordinator)
    && a.initiatedAt == b.initiatedAt
  }

  /** `later` promises at least as much as `earlier`, and at an equal term it is the same round. */
  ghost predicate NoWeaker(earlier: Option<TermRevocation>, later: Option<TermRevocation>) {
    && TermOfRevocation(earlier) <= TermOfRevocation(later)
    && CompareRuleNumbers(OutgoingOf(earlier), OutgoingOf(later)) <= 0
    && (forall pos :: IsRuleRevoked(pos, earlier) ==> IsRuleRevoked(pos, later))
    && (earlier.Some? ==> later.Some?)
    && (earlier.Some? && TermOfRevocation(earlier) == TermOfRevocation(later)
        ==> SameRound(earlier.value, later.value))
  }

  /** Everything a node may do to its status: accept a revocation it validated, or keep its promise
      while anything else about it changes. */
  ghost predicate NodeStep(before: ConsensusStatus, after: ConsensusStatus) {
    || after.revocation == before.revocation
    || (after.revocation.Some? && Accepts(before, after.revocation.value)
        && after == before.(revocation := after.revocation))
  }

  ghost predicate NodeHistory(h: seq<ConsensusStatus>) {
    forall i :: 0 <= i < |h| - 1 ==> NodeStep(h[i], h[i + 1])
  }

  lemma StepKeepsPromise(before: ConsensusStatus, after: ConsensusStatus)
    requires NodeStep(before, after)
    ensures NoWeaker(before.revocation, after.revocation)
  {
  }

  /** A round a node could ever join: it names a coordinator, a start and an outgoing rule below its term. */
  predicate WellAuthored(rev: TermRevocation) {
    && rev.coordinator.Some? && rev.coordinator.value.name != "" && rev.initiatedAt.Some?
    && OutgoingOf(Some(rev)) != UNSET && OutgoingOf(Some(rev)).term < rev.revokedBelowTerm
  }

  /** A node that may give a promise that forbids its own position: it can read its WAL and has caught up with it. */
  predicate CanBeRecruited(cs: ConsensusStatus, rev: TermRevocation) {
    && cs.current.Some? && cs.current.value.lsn.Some? && cs.recruitBlockedUntil.None?
    && IsRuleRevoked(PositionOf(cs.current), Some(rev))
  }

  /** Acceptance is exact: a node accepts a well-authored revocation that forbids its position if and only if its
      promise would become no weaker, position by position. */
  lemma AcceptanceIsExact(cs: ConsensusStatus, rev: TermRevocation)
    ensures Accepts(cs, rev) <==> WellAuthored(rev) && CanBeRecruited(cs, rev) && NoWeaker(cs.revocation, Some(rev))
  {
  }

  /** Asking again changes nothing: a node that stored a round it accepted accepts it. */
  lemma AcceptanceIsIdempotent(cs: ConsensusStatus, rev: TermRevocation)
    requires Accepts(cs, rev)
    ensures Accepts(cs.(revocation := Some(rev)), rev)
  {
    AcceptanceIsExact(cs, rev);
    AcceptanceIsExact(cs.(revocation := Some(rev)), rev);
    hide ValidateRevocation;
  }

  /** At the term of the stored promise exactly the stored round is accepted, and not with an earlier outgoing rule. */
  lemma EqualTermIsOneRound(cs: ConsensusStatus, rev: TermRevocation)
    requires cs.revocation.Some? && cs.revocation.value.revokedBelowTerm == rev.revokedBelowTerm
    requires WellAuthored(rev) && CanBeRecruited(cs, rev)
    ensures Accepts(cs, rev) <==>
            && SameRound(cs.revocation.value, rev)
            && CompareRuleNumbers(OutgoingOf(cs.revocation), OutgoingOf(Some(rev))) <= 0
  {
    AcceptanceIsExact(cs, rev);
    hide ValidateRevocation, CanBeRecruited, WellAuthored;
  }

  /** Along any history, a node that accepted a round and can still be recruited for it accepts it again exactly as
      long as its promise kept the term and the outgoing rule. */
  lemma AcceptedRoundStaysAccepted(h: seq<ConsensusStatus>, i: nat, j: nat, rev: TermRevocation)
    requires NodeHistory(h) && i < j < |h| && Accepts(h[i], rev) && h[i + 1] == h[i].(revocation := Some(rev))
    requires CanBeRecruited(h[j], rev)
    ensures Accepts(h[j], rev) <==>
            && TermOfRevocation(h[j].revocation) == rev.revokedBelowTerm
            && OutgoingOf(h[j].revocation) == OutgoingOf(Some(rev))
  {
    PromisesNeverWeaken(h, i + 1, j);
    AcceptanceIsExact(h[i], rev);
    AcceptanceIsExact(h[j], rev);
    hide ValidateRevocation, CanBeRecruited, WellAuthored, NodeHistory;
  }

  /** A refusal on account of the stored promise says how the revocation is at odds with it. */
  lemma RefusalsAreTruthful(cs: ConsensusStatus, rev: TermRevocation)
    requires ValidateRevocation(cs, Some(rev)).Err?
    ensures var stored := cs.revocation;
            match ValidateRevocation(cs, Some(rev)).error
            case HigherTermAccepted => TermOfRevocation(stored) > rev.revokedBelowTerm
            case WeakerOutgoingRule =>
              CompareRuleNumbers(OutgoingOf(Some(rev)), OutgoingOf(stored)) < 0
            case OtherCoordinator =>
              && TermOfRevocation(stored) == rev.revokedBelowTerm && stored.Some?
              && KeyOf(stored.value.coordinator) != KeyOf(rev.coordinator)
            case OtherRound =>
              && TermOfRevocation(stored) == rev.revokedBelowTerm && stored.Some?
              && KeyOf(stored.value.coordinator) == KeyOf(rev.coordinator)
              && stored.value.initiatedAt != rev.initiatedAt
            case PositionNotRevoked => !IsRuleRevoked(PositionOf(cs.current), Some(rev))
            case BelowRecruitFloor => cs.recruitBlockedUntil.Some?
            case UnknownPosition => cs.current.None?
            case UnparsableLsn => cs.current.Some? && cs.current.value.lsn.None?
            case NilRevocation => false
            case _ => !WellAuthored(rev)
  {
    hide IsRuleRevoked, CompareRuleNumbers;
  }

  lemma NoWeakerTransitive(a: Option<TermRevocation>, b: Option<TermRevocation>, c: Option<TermRevocation>)
    requires NoWeaker(a, b) && NoWeaker(b, c)
    ensures NoWeaker(a, c)
  {
  }

  /** Promises never weaken along any history of a node. */
  lemma {:induction false} PromisesNeverWeaken(h: seq<ConsensusStatus>, i: nat, j: nat)
    requires NodeHistory(h) && i <= j < |h|
    ensures NoWeaker(h[i].revocation, h[j].revocation)
    decreases j - i
  {
    if i < j {
      PromisesNeverWeaken(h, i, j - 1);
      assert NodeStep(h[j - 1], h[j]);
      StepKeepsPromise(h[j - 1], h[j]);
      NoWeakerTransitive(h[i].revocation, h[j - 1].revocation, h[j].revocation);
    }
  }

  // ---------------------------------------------------------------- who may act as leader

  datatype Role = Observer | Follower | Leader

  function SelfConsensusRole(cs: ConsensusStatus): Role {
    var rule := PossiblyUndecidedRule(HighestKnownRule([cs]));
    if cs.id.None? then Observer
    else if RuleNamesLeader(rule, cs.id) then Leader
    else if rule.Some? && exists m :: m in rule.value.cohort && IdsEqual(Some(m), cs.id) then Follower
    else Observer
  }

  predicate IsActiveLeader(cs: ConsensusStatus) {
    var pos := PositionOf(cs.current);
    && RuleNamesLeader(DecisionOf(pos), cs.id)
    && (IsRuleDecided(pos) || RuleNamesLeader(ProposalOf(pos), cs.id))
    && !IsRuleRevoked(pos, cs.revocation)
    && SelfConsensusRole(cs) == Leader
  }

  /** The rule names the node as its leader: same component, cell and name. */
  predicate Names(rule: Option<ShardRule>, id: Option<ID>) {
    rule.Some? && id.Some? && rule.value.leader == id
  }

  /** The most advanced position a node reports, its own among equals. */
  ghost predicate Foremost(cs: ConsensusStatus, top: Option<RulePosition>) {
    && Reports(cs, top) && (forall p :: Reports(cs, p) ==> CompareRulePosition(p, top) <= 0)
    && (top == PositionOf(cs.current) || CompareRulePosition(PositionOf(cs.current), top) < 0)
  }

  lemma KnownIsForemost(cs: ConsensusStatus)
    ensures Foremost(cs, HighestKnownRule([cs]))
  {
    ReportedPrimary(cs);
    OwnPositionIsReported(cs);
    var current, known := PositionOf(cs.current), PrimaryPosition(ReplicationPrimaryOrNil(cs));
    assert [cs][..0] == [];
    assert HighestKnownRule([cs]) == Advance(Advance(None, current), known);
    assert known.Some? ==> Numbers(known) != NumberPosition(UNSET, UNSET);
    hide ReplicationPrimaryOrNil, Reports;
  }

  /** A node leads exactly if the rule of the foremost position it reports names it, and follows exactly if that rule
      lists it without naming it. */
  lemma RoleIsExact(cs: ConsensusStatus, top: Option<RulePosition>)
    requires Foremost(cs, top)
    ensures SelfConsensusRole(cs) == Leader <==> Names(PossiblyUndecidedRule(top), cs.id)
    ensures SelfConsensusRole(cs) == Follower <==>
            && cs.id.Some? && PossiblyUndecidedRule(top).Some? && !Names(PossiblyUndecidedRule(top), cs.id)
            && cs.id.value in PossiblyUndecidedRule(top).value.cohort
  {
    ReportedPrimary(cs);
    KnownIsForemost(cs);
    CompareFlip(top, HighestKnownRule([cs]));
    hide HighestKnownRule, ReplicationPrimaryOrNil, CompareRulePosition;
    assert top == HighestKnownRule([cs]);
  }

  /** A node may take writes exactly if its own decision names it, what is undecided on it does too, its promise does
      not forbid its position, and every position it reports ahead of its own still names it. */
  lemma ActiveLeaderIsExact(cs: ConsensusStatus)
    ensures var own := PositionOf(cs.current);
            IsActiveLeader(cs) <==>
            && Names(DecisionOf(own), cs.id) && (IsRuleDecided(own) || Names(ProposalOf(own), cs.id))
            && !IsRuleRevoked(own, cs.revocation)
            && forall p :: Reports(cs, p) && CompareRulePosition(p, own) > 0 ==> Names(PossiblyUndecidedRule(p), cs.id)
  {
    var own, top := PositionOf(cs.current), HighestKnownRule([cs]);
    ReportedPrimary(cs);
    KnownIsForemost(cs);
    RoleIsExact(cs, top);
    CompareFlip(own, top);
    CompareFlip(own, own);
    hide HighestKnownRule, ReplicationPrimaryOrNil, CompareRulePosition, IsRuleRevoked, SelfConsensusRole;
  }

  /** A node that accepted a revocation is not an active leader again before its position advances. */
  lemma RecruitedLeaderStaysInactive(h: seq<ConsensusStatus>, i: nat, j: nat, rev: TermRevocation)
    requires NodeHistory(h) && i < j < |h|
    requires Accepts(h[i], rev) && h[i + 1] == h[i].(revocation := Some(rev))
    requires CompareRulePosition(PositionOf(h[j].current), PositionOf(h[i].current)) <= 0
    ensures !IsActiveLeader(h[j])
  {
    PromisesNeverWeaken(h, i + 1, j);
    assert IsRuleRevoked(PositionOf(h[i].current), h[j].revocation);
    RevokedIsDownwardClosed(PositionOf(h[j].current), PositionOf(h[i].current), h[j].revocation);
  }

  // ---------------------------------------------------------------- choosing among revocations

  function InitiatedAt(rev: TermRevocation): int { if rev.initiatedAt.Some? then rev.initiatedAt.value else 0 }

  /** Higher term, then the smaller coordinator key, then the more recent round. */
  predicate Better(a: TermRevocation, b: TermRevocation) {
    if a.revokedBelowTerm != b.revokedBelowTerm then a.revokedBelowTerm > b.revokedBelowTerm
    else if KeyOf(a.coordinator) != KeyOf(b.coordinator) then LexLe(KeyOf(a.coordinator), KeyOf(b.coordinator))
    else InitiatedAt(a) > InitiatedAt(b)
  }

  function HighestRevocation(candidates: seq<TermRevocation>): Option<TermRevocation> {
    if candidates == [] then None
    else
      var best, last := HighestRevocation(candidates[..|candidates| - 1]), candidates[|candidates| - 1];
      if best.None? || (best.value != last && Better(last, best.value)) then Some(last) else best
  }

  method HighestRevokedBelowTermRevocation(candidates: seq<TermRevocation>)
    returns (best: Option<TermRevocation>)
    ensures best == HighestRevocation(candidates)
  {
    best := None;
    for i := 0 to |candidates|
      invariant best == HighestRevocation(candidates[..i])
    {
      assert candidates[..i + 1][..i] == candidates[..i];
      var rev := candidates[i];
      if best.None? {
        best := Some(rev);
      } else if best.value == rev {
      } else if rev.revokedBelowTerm != best.value.revokedBelowTerm {
        if rev.revokedBelowTerm > best.value.revokedBelowTerm { best := Some(rev); }
      } else if KeyOf(rev.coordinator) != KeyOf(best.value.coordinator) {
        if LexLe(KeyOf(rev.coordinator), KeyOf(best.value.coordinator)) { best := Some(rev); }
      } else if InitiatedAt(rev) > InitiatedAt(best.value) {
        best := Some(rev);
      }
    }
    assert candidates[..|candidates|] == candidates;
  }

  lemma NotBetterTransitive(a: TermRevocation, b: TermRevocation, c: TermRevocation)
    requires !Better(b, a) && !Better(c, b)
    ensures !Better(c, a)
  {
    var (ka, kb, kc) := (KeyOf(a.coordinator), KeyOf(b.coordinator), KeyOf(c.coordinator));
    LexLeTotal(ka, kb);
    LexLeTotal(kb, kc);
    if LexLe(ka, kb) && LexLe(kb, kc) {
      LexLeTransitive(ka, kb, kc);
      if LexLe(kc, ka) { LexLeAntisymmetric(ka, kc); }
      if ka == kc { LexLeAntisymmetric(ka, kb); }
    }
  }

  lemma {:induction false} HighestRevocationIsBest(candidates: seq<TermRevocation>)
    requires candidates != []
    ensures HighestRevocation(candidates).Some?
    ensures HighestRevocation(candidates).value in candidates
    ensures forall c :: c in candidates ==> !Better(c, HighestRevocation(candidates).value)
    ensures var best := HighestRevocation(candidates).value;
            forall c :: c in candidates ==>
              && c.revokedBelowTerm <= best.revokedBelowTerm
              && (c.revokedBelowTerm == best.revokedBelowTerm ==>
                    && LexLe(KeyOf(best.coordinator), KeyOf(c.coordinator))
                    && (KeyOf(c.coordinator) == KeyOf(best.coordinator) ==> InitiatedAt(c) <= InitiatedAt(best)))
  {
    var init, last := candidates[..|candidates| - 1], candidates[|candidates| - 1];
    assert candidates == init + [last];
    if init != [] {
      HighestRevocationIsBest(init);
      var best, prior := HighestRevocation(candidates).value, HighestRevocation(init).value;
      LexLeTotal(KeyOf(last.coordinator), KeyOf(prior.coordinator));
      if LexLe(KeyOf(last.coordinator), KeyOf(prior.coordinator))
         && LexLe(KeyOf(prior.coordinator), KeyOf(last.coordinator)) {
        LexLeAntisymmetric(KeyOf(last.coordinator), KeyOf(prior.coordinator));
      }
      forall c | c in init ensures !Better(c, best) { NotBetterTransitive(best, prior, c); }
    }
    forall c | c in candidates ensures
        LexLe(KeyOf(HighestRevocation(candidates).value.coordinator), KeyOf(c.coordinator))
        || LexLe(KeyOf(c.coordinator), KeyOf(HighestRevocation(candidates).value.coordinator))
    {
      LexLeTotal(KeyOf(HighestRevocation(candidates).value.coordinator), KeyOf(c.coordinator));
    }
  }

  /** The winner's term, coordinator and time do not depend on the order or multiplicity of candidates. */
  lemma HighestRevocationOrderIndependent(a: seq<TermRevocation>, b: seq<TermRevocation>)
    requires a != [] && forall r :: r in a <==> r in b
    ensures b != [] && HighestRevocation(a).Some? && HighestRevocation(b).Some?
    ensures var x, y := HighestRevocation(a).value, HighestRevocation(b).value;
            && x.revokedBelowTerm == y.revokedBelowTerm
            && KeyOf(x.coordinator) == KeyOf(y.coordinator)
            && InitiatedAt(x) == InitiatedAt(y)
  {
    assert a[0] in b;
    HighestRevocationIsBest(a);
    HighestRevocationIsBest(b);
    LexLeTotal(KeyOf(HighestRevocation(a).value.coordinator), KeyOf(HighestRevocation(b).value.coordinator));
  }

  // ---------------------------------------------------------------- authoring a revocation

  datatype AuthoringError = NoStatuses | NilInitiatedAt | NoRecordedRule

  /** The most advanced position reported, the first one among equals. */
  function MaxPosition(statuses: seq<ConsensusStatus>): Option<RulePosition> {
    if statuses == [] then None
    else Advance(MaxPosition(statuses[..|statuses| - 1]), PositionOf(statuses[|statuses| - 1].current))
  }

  function HighestDecidedRule(statuses: seq<ConsensusStatus>): RuleNumber {
    if statuses == [] then UNSET
    else
      var best := HighestDecidedRule(statuses[..|statuses| - 1]);
      var d := Numbers(PositionOf(statuses[|statuses| - 1].current)).decision;
      if CompareRuleNumbers(d, best) > 0 then d else best
  }

  function HighestRevokedBelowTerm(statuses: seq<ConsensusStatus>): nat {
    if statuses == [] then 0
    else
      var best, t := HighestRevokedBelowTerm(statuses[..|statuses| - 1]),
                     TermOfRevocation(statuses[|statuses| - 1].revocation);
      if t > best then t else best
  }

  /** A prior attempt to replace the given decision. */
  predicate TriedToReplace(rev: TermRevocation, decision: RuleNumber) {
    rev.revokedBelowTerm > 0 && rev.intent.Some? && rev.intent.value.replaceDecision == decision
  }

  /** The revocations that tried to replace the given decision. */
  function RevocationsMatching(statuses: seq<ConsensusStatus>, decision: RuleNumber): seq<TermRevocation> {
    if statuses == [] then []
    else
      var rev := statuses[|statuses| - 1].revocation;
      RevocationsMatching(statuses[..|statuses| - 1], decision)
      + (if rev.Some? && rev.value.revokedBelowTerm > 0 && rev.value.intent.Some?
            && CompareRuleNumbers(rev.value.intent.value.replaceDecision, decision) == 0
         then [rev.value] else [])
  }

  /** Exactly the prior attempts some surveyed node still holds are collected. */
  lemma {:induction false} MatchesAreExact(statuses: seq<ConsensusStatus>, decision: RuleNumber)
    ensures forall r :: r in RevocationsMatching(statuses, decision) <==>
              TriedToReplace(r, decision) && exists cs :: cs in statuses && cs.revocation == Some(r)
  {
    if statuses != [] {
      var init, last := statuses[..|statuses| - 1], statuses[|statuses| - 1];
      assert statuses == init + [last];
      MatchesAreExact(init, decision);
    }
  }

  /** The highest decision surveyed: some node records it, unless nobody records any, and none is above it. */
  lemma {:induction false} HighestDecidedRuleIsMaximum(statuses: seq<ConsensusStatus>)
    ensures forall cs :: cs in statuses ==>
              CompareRuleNumbers(Numbers(PositionOf(cs.current)).decision, HighestDecidedRule(statuses)) <= 0
    ensures HighestDecidedRule(statuses) == UNSET
            || exists cs :: cs in statuses && Numbers(PositionOf(cs.current)).decision == HighestDecidedRule(statuses)
  {
    if statuses != [] {
      var init, last := statuses[..|statuses| - 1], statuses[|statuses| - 1];
      assert statuses == init + [last];
      HighestDecidedRuleIsMaximum(init);
    }
  }

  function RecruitAttempt(previous: Option<TermRevocation>, initiatedAt: int, window: int): int {
    if previous.None? then 1
    else if window > 0 && initiatedAt - InitiatedAt(previous.value) > window then 1
    else (if previous.value.intent.Some? then previous.value.intent.value.attempt else 0) + 1
  }

  function NewTermRevocation(statuses: seq<ConsensusStatus>, coordinator: Option<ID>,
                             initiatedAt: Option<int>, window: int): Result<TermRevocation, AuthoringError>
  {
    if statuses == [] then Err(NoStatuses)
    else if initiatedAt.None? then Err(NilInitiatedAt)
    else if MaxPosition(statuses).None? then Err(NoRecordedRule)
    else
      var outgoing := NumberOf(PossiblyUndecidedRule(MaxPosition(statuses)));
      var revoked := HighestRevokedBelowTerm(statuses);
      var maxTerm := if revoked > outgoing.term then revoked else outgoing.term;
      var replace := HighestDecidedRule(statuses);
      var previous := HighestRevocation(RevocationsMatching(statuses, replace));
      Ok(TermRevocation(maxTerm + 1, coordinator, initiatedAt, Some(outgoing),
                        Some(RecruitIntent(replace, RecruitAttempt(previous, initiatedAt.value, window)))))
  }

  /** The discovery loops: one pass each for the position, the decision, the term and the prior attempts. */
  method AuthorRevocation(statuses: seq<ConsensusStatus>, coordinator: Option<ID>,
                          initiatedAt: Option<int>, window: int)
    returns (r: Result<TermRevocation, AuthoringError>)
    ensures r == NewTermRevocation(statuses, coordinator, initiatedAt, window)
  {
    hide TriedToReplace, RevocationsMatching, HighestRevocation, RecruitAttempt, PossiblyUndecidedRule;
    if statuses == [] {
      return Err(NoStatuses);
    }
    if initiatedAt.None? {
      return Err(NilInitiatedAt);
    }
    var maxPosition, replace, revoked := None, UNSET, 0;
    for i := 0 to |statuses|
      invariant maxPosition == MaxPosition(statuses[..i])
      invariant replace == HighestDecidedRule(statuses[..i])
      invariant revoked == HighestRevokedBelowTerm(statuses[..i])
    {
      assert statuses[..i + 1][..i] == statuses[..i];
      var position := PositionOf(statuses[i].current);
      if maxPosition.None? || CompareRulePosition(position, maxPosition) > 0 { maxPosition := position; }
      var d := Numbers(position).decision;
      if CompareRuleNumbers(d, replace) > 0 { replace := d; }
      var t := TermOfRevocation(statuses[i].revocation);
      if t > revoked { revoked := t; }
    }
    assert statuses[..|statuses|] == statuses;
    if maxPosition.None? {
      return Err(NoRecordedRule);
    }
    var outgoing := NumberOf(PossiblyUndecidedRule(maxPosition));
    var maxTerm := outgoing.term;
    if revoked > maxTerm { maxTerm := revoked; }
    var matches := MatchRevocations(statuses, replace);
    var previous := HighestRevokedBelowTermRevocation(matches);
    r := Ok(TermRevocation(maxTerm + 1, coordinator, initiatedAt, Some(outgoing),
                           Some(RecruitIntent(replace, RecruitAttempt(previous, initiatedAt.value, window)))));
  }

  method MatchRevocations(statuses: seq<ConsensusStatus>, decision: RuleNumber)
    returns (matches: seq<TermRevocation>)
    ensures matches == RevocationsMatching(statuses, decision)
    ensures forall r :: r in matches <==>
              TriedToReplace(r, decision) && exists cs :: cs in statuses && cs.revocation == Some(r)
  {
    matches := [];
    for i := 0 to |statuses|
      invariant matches == RevocationsMatching(statuses[..i], decision)
    {
      assert statuses[..i + 1][..i] == statuses[..i];
      var rev := statuses[i].revocation;
      if rev.Some? && rev.value.revokedBelowTerm > 0 && rev.value.intent.Some?
         && CompareRuleNumbers(rev.value.intent.value.replaceDecision, decision) == 0 {
        matches := matches + [rev.value];
      }
    }
    assert statuses[..|statuses|] == statuses;
    MatchesAreExact(statuses, decision);
  }

  /** The prior attempts a survey finds at the decision being replaced. */
  ghost predicate PriorAttempt(rev: TermRevocation, statuses: seq<ConsensusStatus>) {
    TriedToReplace(rev, HighestDecidedRule(statuses)) && exists cs :: cs in statuses && cs.revocation == Some(rev)
  }

  /** A revocation counts one more than the best prior attempt at the same decision, and starts again at one when
      there is none or the best is older than the window. */
  lemma AttemptsAreCounted(statuses: seq<ConsensusStatus>, coordinator: Option<ID>, initiatedAt: int, window: int)
    requires NewTermRevocation(statuses, coordinator, Some(initiatedAt), window).Ok?
    ensures var rev := NewTermRevocation(statuses, coordinator, Some(initiatedAt), window).value;
            && rev.intent.Some? && rev.intent.value.replaceDecision == HighestDecidedRule(statuses)
            && ((forall r :: !PriorAttempt(r, statuses)) ==> rev.intent.value.attempt == 1)
            && ((exists r :: PriorAttempt(r, statuses)) ==>
                  exists best ::
                    && PriorAttempt(best, statuses) && (forall r :: PriorAttempt(r, statuses) ==> !Better(r, best))
                    && rev.intent.value.attempt ==
                       if window > 0 && initiatedAt - InitiatedAt(best) > window then 1
                       else best.intent.value.attempt + 1)
  {
    var replace := HighestDecidedRule(statuses);
    var matches := RevocationsMatching(statuses, replace);
    MatchesAreExact(statuses, replace);
    hide MaxPosition, HighestDecidedRule, HighestRevokedBelowTerm, RevocationsMatching, HighestRevocation, Better;
    if matches == [] {
      assert HighestRevocation(matches) == None by { NoCandidates(); }
    } else {
      HighestRevocationIsBest(matches);
      assert matches[0] in matches;
      assert PriorAttempt(HighestRevocation(matches).value, statuses);
    }
  }

  lemma NoCandidates()
    ensures HighestRevocation([]) == None
  {
  }

  lemma {:induction false} SurveyBounds(statuses: seq<ConsensusStatus>, cs: ConsensusStatus)
    requires cs in statuses
    ensures CompareRulePosition(PositionOf(cs.current), MaxPosition(statuses)) <= 0
    ensures TermOfRevocation(cs.revocation) <= HighestRevokedBelowTerm(statuses)
  {
    var init, last := statuses[..|statuses| - 1], statuses[|statuses| - 1];
    assert statuses == init + [last];
    if cs in init {
      SurveyBounds(init, cs);
      CompareTransitive(MaxPosition(statuses), MaxPosition(init), PositionOf(cs.current));
    }
  }

  /** The most advanced of the positions surveyed. */
  ghost predicate MostAdvanced(cs: ConsensusStatus, statuses: seq<ConsensusStatus>) {
    && cs in statuses && PositionOf(cs.current).Some?
    && forall s :: s in statuses ==> CompareRulePosition(PositionOf(s.current), PositionOf(cs.current)) <= 0
  }

  lemma {:induction false} MaxPositionIsReported(statuses: seq<ConsensusStatus>)
    ensures MaxPosition(statuses).Some? <==> exists cs :: cs in statuses && PositionOf(cs.current).Some?
    ensures MaxPosition(statuses).Some? ==>
              exists cs :: cs in statuses && PositionOf(cs.current) == MaxPosition(statuses)
  {
    if statuses != [] {
      var init, last := statuses[..|statuses| - 1], statuses[|statuses| - 1];
      assert statuses == init + [last];
      MaxPositionIsReported(init);
      if cs :| cs in init && PositionOf(cs.current).Some? { assert cs in statuses; }
    }
  }

  lemma {:induction false} HighestTermIsHeld(statuses: seq<ConsensusStatus>)
    ensures HighestRevokedBelowTerm(statuses) == 0
            || exists cs :: cs in statuses && TermOfRevocation(cs.revocation) == HighestRevokedBelowTerm(statuses)
  {
    if statuses != [] {
      var init, last := statuses[..|statuses| - 1], statuses[|statuses| - 1];
      assert statuses == init + [last];
      HighestTermIsHeld(init);
    }
  }

  lemma MostAdvancedIsMax(statuses: seq<ConsensusStatus>, cs: ConsensusStatus)
    requires MostAdvanced(cs, statuses)
    ensures MaxPosition(statuses).Some?
    ensures NumberOf(PossiblyUndecidedRule(MaxPosition(statuses)))
            == NumberOf(PossiblyUndecidedRule(PositionOf(cs.current)))
  {
    SurveyBounds(statuses, cs);
    MaxPositionIsReported(statuses);
    hide MaxPosition;
    var top :| top in statuses && PositionOf(top.current) == MaxPosition(statuses);
  }

  /** What is authored, in terms of the survey alone. It needs a start and a reported position; it carries the
      coordinator and the start; it leaves the rule, decided or not, of every most advanced position; and its term is
      above every promise surveyed and that rule, by one above one of them. */
  lemma AuthoredFromSurvey(
    statuses: seq<ConsensusStatus>, coordinator: Option<ID>, initiatedAt: Option<int>, window: int)
    ensures var r := NewTermRevocation(statuses, coordinator, initiatedAt, window);
            && (r.Ok? <==> initiatedAt.Some? && exists cs :: cs in statuses && PositionOf(cs.current).Some?)
            && (r.Ok? ==>
                  var rev, outgoing := r.value, OutgoingOf(Some(r.value));
                  && rev.coordinator == coordinator && rev.initiatedAt == initiatedAt
                  && (exists cs :: MostAdvanced(cs, statuses))
                  && (forall cs :: MostAdvanced(cs, statuses) ==>
                        rev.outgoingRule == Some(NumberOf(PossiblyUndecidedRule(PositionOf(cs.current)))))
                  && outgoing.term < rev.revokedBelowTerm
                  && (forall cs :: cs in statuses ==> TermOfRevocation(cs.revocation) < rev.revokedBelowTerm)
                  && (rev.revokedBelowTerm == outgoing.term + 1
                      || exists cs :: cs in statuses && rev.revokedBelowTerm == TermOfRevocation(cs.revocation) + 1))
  {
    MaxPositionIsReported(statuses);
    HighestTermIsHeld(statuses);
    hide MaxPosition, HighestDecidedRule, HighestRevokedBelowTerm, RevocationsMatching, HighestRevocation,
      RecruitAttempt, PossiblyUndecidedRule, CompareRulePosition;
    if NewTermRevocation(statuses, coordinator, initiatedAt, window).Ok? {
      forall cs | cs in statuses
        ensures TermOfRevocation(cs.revocation) <= HighestRevokedBelowTerm(statuses)
        ensures CompareRulePosition(PositionOf(cs.current), MaxPosition(statuses)) <= 0
      {
        SurveyBounds(statuses, cs);
      }
      var top :| top in statuses && PositionOf(top.current) == MaxPosition(statuses);
      assert MostAdvanced(top, statuses);
      forall cs | MostAdvanced(cs, statuses)
        ensures NumberOf(PossiblyUndecidedRule(PositionOf(cs.current)))
                == NumberOf(PossiblyUndecidedRule(MaxPosition(statuses)))
      {
        MostAdvancedIsMax(statuses, cs);
      }
    }
  }

  lemma SurveyedPositionIsRevoked(pos: Option<RulePosition>, most: Option<RulePosition>, rev: TermRevocation)
    requires CompareRulePosition(pos, most) <= 0 && WellNumbered(most)
    requires rev.outgoingRule == Some(NumberOf(PossiblyUndecidedRule(most)))
    requires !IsUnset(rev.outgoingRule.value) && rev.outgoingRule.value.term < rev.revokedBelowTerm
    ensures IsRuleRevoked(pos, Some(rev))
  {
  }

  /** A revocation authored from a survey outranks every term surveyed, and a surveyed node that could be
      recruited at all accepts it exactly when it has not promised a later outgoing rule. */
  lemma NewTermRevocationIsAccepted(
    statuses: seq<ConsensusStatus>, coordinator: ID, initiatedAt: int, window: int, cs: ConsensusStatus)
    requires coordinator.name != "" && cs in statuses
    requires exists s :: s in statuses && !IsUnset(Numbers(PositionOf(s.current)).decision)
    requires WellNumbered(MaxPosition(statuses))
    ensures NewTermRevocation(statuses, Some(coordinator), Some(initiatedAt), window).Ok?
    ensures var rev := NewTermRevocation(statuses, Some(coordinator), Some(initiatedAt), window).value;
            && rev.revokedBelowTerm > TermOfRevocation(cs.revocation)
            && rev.revokedBelowTerm > OutgoingOf(Some(rev)).term
            && (cs.current.Some? && cs.current.value.lsn.Some? && cs.recruitBlockedUntil.None? ==>
                  (Accepts(cs, rev) <==> CompareRuleNumbers(OutgoingOf(cs.revocation), OutgoingOf(Some(rev))) <= 0))
  {
    var s :| s in statuses && !IsUnset(Numbers(PositionOf(s.current)).decision);
    SurveyBounds(statuses, s);
    SurveyBounds(statuses, cs);
    var most := MaxPosition(statuses);
    hide MaxPosition, HighestDecidedRule, HighestRevokedBelowTerm, RevocationsMatching, HighestRevocation,
      RecruitAttempt, ValidateRevocation, IsRuleRevoked, PossiblyUndecidedRule, WellNumbered, CompareRulePosition;
    KnownDecision(PositionOf(s.current), most);
    var rev := NewTermRevocation(statuses, Some(coordinator), Some(initiatedAt), window).value;
    SurveyedPositionIsRevoked(PositionOf(cs.current), most, rev);
    if cs.recruitBlockedUntil.None? { OutrankingIsAccepted(cs, rev); }
  }

  lemma KnownDecision(pos: Option<RulePosition>, most: Option<RulePosition>)
    requires !IsUnset(Numbers(pos).decision) && CompareRulePosition(pos, most) <= 0
    ensures most.Some? && !IsUnset(NumberOf(PossiblyUndecidedRule(most)))
  {
  }

  lemma OutrankingIsAccepted(cs: ConsensusStatus, rev: TermRevocation)
    requires rev.coordinator.Some? && rev.coordinator.value.name != "" && rev.initiatedAt.Some?
    requires rev.revokedBelowTerm > TermOfRevocation(cs.revocation) && rev.revokedBelowTerm > OutgoingOf(Some(rev)).term
    requires !IsUnset(OutgoingOf(Some(rev))) && IsRuleRevoked(PositionOf(cs.current), Some(rev))
    requires cs.recruitBlockedUntil.None?
    ensures cs.current.Some? && cs.current.value.lsn.Some? ==>
              (Accepts(cs, rev) <==> CompareRuleNumbers(OutgoingOf(cs.revocation), OutgoingOf(Some(rev))) <= 0)
  {
    hide IsRuleRevoked;
  }
}
