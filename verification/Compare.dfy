/** Ordering of rule numbers and positions, and the running-maximum scans built on it. */
module Compare {
  import opened Types

  // ---------------------------------------------------------------- rule numbers

  /** Lexicographic: the coordinator term first, then the leader subterm. */
  function CompareRuleNumbers(a: RuleNumber, b: RuleNumber): int {
    if a.term != b.term then (if a.term < b.term then -1 else 1)
    else if a.subterm != b.subterm then (if a.subterm < b.subterm then -1 else 1)
    else 0
  }

  predicate IsUnset(n: RuleNumber): (r: bool)
    ensures r <==> n == UNSET
  {
    (if n.term > n.subterm then n.term else n.subterm) == 0
  }

  function NumberOf(rule: Option<ShardRule>): RuleNumber {
    if rule.Some? then rule.value.number else UNSET
  }

  /** An absent rule number compares as the zero value. */
  function NumberOrUnset(n: Option<RuleNumber>): RuleNumber { if n.Some? then n.value else UNSET }

  // ---------------------------------------------------------------- positions

  function DecisionOf(pos: Option<RulePosition>): Option<ShardRule> {
    if pos.Some? then pos.value.decision else None
  }

  function ProposalOf(pos: Option<RulePosition>): Option<ShardRule> {
    if pos.Some? then pos.value.proposal else None
  }

  predicate IsRuleDecided(pos: Option<RulePosition>) { IsUnset(NumberOf(ProposalOf(pos))) }

  /** The outstanding proposal if there is one, otherwise the decision. */
  function PossiblyUndecidedRule(pos: Option<RulePosition>): Option<ShardRule> {
    if !IsRuleDecided(pos) then ProposalOf(pos) else DecisionOf(pos)
  }

  /** A position reduced to its rule numbers. */
  datatype NumberPosition = NumberPosition(decision: RuleNumber, proposal: RuleNumber)

  function Numbers(pos: Option<RulePosition>): NumberPosition {
    NumberPosition(NumberOf(DecisionOf(pos)), NumberOf(ProposalOf(pos)))
  }

  /** The decision outranks everything; proposals only break a tie between equal decisions. */
  function CompareNumbers(a: NumberPosition, b: NumberPosition): int {
    var cmp := CompareRuleNumbers(a.decision, b.decision);
    if cmp != 0 then cmp else CompareRuleNumbers(a.proposal, b.proposal)
  }

  function CompareRulePosition(a: Option<RulePosition>, b: Option<RulePosition>): int {
    CompareNumbers(Numbers(a), Numbers(b))
  }

  lemma CompareTransitive(a: Option<RulePosition>, b: Option<RulePosition>, c: Option<RulePosition>)
    requires CompareRulePosition(a, b) >= 0 && CompareRulePosition(b, c) >= 0
    ensures CompareRulePosition(a, c) >= 0
  {
  }

  lemma CompareFlip(a: Option<RulePosition>, b: Option<RulePosition>)
    ensures CompareRulePosition(a, b) == -CompareRulePosition(b, a)
  {
  }

  /** An outstanding proposal is numbered above the decision it was written on. */
  predicate WellNumbered(pos: Option<RulePosition>) {
    IsRuleDecided(pos) || CompareRuleNumbers(Numbers(pos).proposal, Numbers(pos).decision) > 0
  }

  function PositionOf(current: Option<PoolerPosition>): Option<RulePosition> {
    if current.Some? then current.value.position else None
  }

  function LsnOf(current: Option<PoolerPosition>): Option<nat> {
    if current.Some? then current.value.lsn else None
  }

  /** Rule position first; LSN breaks ties, and an unparsable LSN is below every parsable one. */
  function ComparePoolerPosition(a: Option<PoolerPosition>, b: Option<PoolerPosition>): int {
    var cmp := CompareRulePosition(PositionOf(a), PositionOf(b));
    if cmp != 0 then cmp else
      match (LsnOf(a), LsnOf(b))
      case (None, None) => 0
      case (None, _) => -1
      case (_, None) => 1
      case (Some(x), Some(y)) => if x < y then -1 else if x > y then 1 else 0
  }

  lemma PoolerCompareTransitive(a: Option<PoolerPosition>, b: Option<PoolerPosition>, c: Option<PoolerPosition>)
    requires ComparePoolerPosition(a, b) >= 0 && ComparePoolerPosition(b, c) >= 0
    ensures ComparePoolerPosition(a, c) >= 0
  {
  }

  lemma PoolerCompareFlip(a: Option<PoolerPosition>, b: Option<PoolerPosition>)
    ensures ComparePoolerPosition(a, b) == -ComparePoolerPosition(b, a)
  {
  }

  // ---------------------------------------------------------------- highest known and decided rule

  /** A replication primary whose position carries no rule at all is reported as absent. */
  function ReplicationPrimaryOrNil(cs: ConsensusStatus): Option<ReplicationPrimary> {
    if cs.replicationPrimary.None? then None
    else
      var n := Numbers(cs.replicationPrimary.value.position);
      if IsUnset(n.decision) && IsUnset(n.proposal) then None else cs.replicationPrimary
  }

  function PrimaryPosition(rp: Option<ReplicationPrimary>): Option<RulePosition> {
    if rp.Some? then rp.value.position else None
  }

  /** One step of a running maximum that keeps the first position seen among equals. */
  function Advance(best: Option<RulePosition>, next: Option<RulePosition>): Option<RulePosition> {
    if best.None? || CompareRulePosition(next, best) > 0 then next else best
  }

  /** The running maximum of the positions two fields of every status report. */
  function HighestKnownRule(statuses: seq<ConsensusStatus>): Option<RulePosition> {
    if statuses == [] then None
    else
      var last := statuses[|statuses| - 1];
      Advance(Advance(HighestKnownRule(statuses[..|statuses| - 1]), PositionOf(last.current)),
              PrimaryPosition(ReplicationPrimaryOrNil(last)))
  }

  /** What a node reports: its own position, and that of its replication primary if it carries any rule. */
  ghost predicate Reports(cs: ConsensusStatus, p: Option<RulePosition>) {
    || p == PositionOf(cs.current)
    || (&& cs.replicationPrimary.Some? && p == cs.replicationPrimary.value.position
        && Numbers(p) != NumberPosition(UNSET, UNSET))
  }

  lemma ReportedPrimary(cs: ConsensusStatus)
    ensures var known := PrimaryPosition(ReplicationPrimaryOrNil(cs));
            && (known.Some? ==> Reports(cs, known))
            && forall p :: Reports(cs, p) ==> p == PositionOf(cs.current) || p == known
  {
  }

  lemma AdvanceTwice(prior: Option<RulePosition>, a: Option<RulePosition>, b: Option<RulePosition>)
    ensures var best := Advance(Advance(prior, a), b);
            && CompareRulePosition(best, prior) >= 0 && CompareRulePosition(best, a) >= 0
            && CompareRulePosition(best, b) >= 0
            && (best == a || (best == b && b.Some?) || (best == prior && prior.Some?))
  {
  }

  lemma OwnPositionIsReported(cs: ConsensusStatus)
    ensures Reports(cs, PositionOf(cs.current))
  {
  }

  /** The highest known rule is reported by some status and nothing reported is ahead of it. */
  lemma {:induction false} HighestKnownRuleIsMaximum(statuses: seq<ConsensusStatus>)
    ensures forall cs, p :: cs in statuses && Reports(cs, p) ==>
              CompareRulePosition(HighestKnownRule(statuses), p) >= 0
    ensures statuses != [] ==> exists cs :: cs in statuses && Reports(cs, HighestKnownRule(statuses))
  {
    hide CompareRulePosition, ReplicationPrimaryOrNil, Advance, Reports;
    if statuses != [] {
      var init, last := statuses[..|statuses| - 1], statuses[|statuses| - 1];
      HighestKnownRuleIsMaximum(init);
      assert statuses == init + [last];
      var best, prior := HighestKnownRule(statuses), HighestKnownRule(init);
      ReportedPrimary(last);
      assert Reports(last, PositionOf(last.current)) by { OwnPositionIsReported(last); }
      AdvanceTwice(prior, PositionOf(last.current), PrimaryPosition(ReplicationPrimaryOrNil(last)));
      forall cs, p | cs in statuses && Reports(cs, p) ensures CompareRulePosition(best, p) >= 0 {
        if cs in init { CompareTransitive(best, prior, p); }
      }
      assert last in statuses;
      if !Reports(last, best) {
        var cs :| cs in init && Reports(cs, prior);
        assert cs in statuses;
      }
    }
  }

  method ScanHighestKnownRule(statuses: seq<ConsensusStatus>) returns (best: Option<RulePosition>)
    ensures best == HighestKnownRule(statuses)
    ensures forall cs, p :: cs in statuses && Reports(cs, p) ==> CompareRulePosition(best, p) >= 0
  {
    best := None;
    for i := 0 to |statuses|
      invariant best == HighestKnownRule(statuses[..i])
    {
      assert statuses[..i + 1][..i] == statuses[..i];
      var positions := [PositionOf(statuses[i].current),
                        PrimaryPosition(ReplicationPrimaryOrNil(statuses[i]))];
      if best.None? || CompareRulePosition(positions[0], best) > 0 { best := positions[0]; }
      if best.None? || CompareRulePosition(positions[1], best) > 0 { best := positions[1]; }
    }
    assert statuses[..|statuses|] == statuses;
    HighestKnownRuleIsMaximum(statuses);
  }

  // ---------------------------------------------------------------- replication primaries

  function FieldsOf(id: Option<ID>): RawID { if id.Some? then id.value else RawID("", "", "") }

  predicate IdsEqual(a: Option<ID>, b: Option<ID>) { FieldsOf(a) == FieldsOf(b) }

  predicate RuleNamesLeader(rule: Option<ShardRule>, id: Option<ID>) {
    rule.Some? && rule.value.leader.Some? && id.Some? && IdsEqual(rule.value.leader, id)
  }

  function AddressFields(a: Option<PoolerAddress>): (RawID, string, int) {
    if a.Some? then (FieldsOf(a.value.id), a.value.host, a.value.port) else (FieldsOf(None), "", 0)
  }

  function Ready(rp: Option<ReplicationPrimary>): bool { rp.Some? && rp.value.rewindReady }

  function PrimaryOf(rp: Option<ReplicationPrimary>): Option<PoolerAddress> {
    if rp.Some? then rp.value.primary else None
  }

  /** The coordinator term a replication primary was recorded under. */
  function TermOf(rp: Option<ReplicationPrimary>): nat {
    NumberOf(PossiblyUndecidedRule(PrimaryPosition(rp))).term
  }

  predicate CarriesRule(rp: Option<ReplicationPrimary>) {
    PossiblyUndecidedRule(PrimaryPosition(rp)).Some?
  }

  /** Folds an observed candidate into the recorded value; the flag says whether anything changed. */
  function MergeReplicationPrimary(current: Option<ReplicationPrimary>, candidate: Option<ReplicationPrimary>)
    : (r: (Option<ReplicationPrimary>, bool))
  {
    if !CarriesRule(candidate) then (current, false)
    else
      var ready := Ready(candidate) || (TermOf(candidate) == TermOf(current) && Ready(current));
      var cmp := CompareRulePosition(PrimaryPosition(candidate), PrimaryPosition(current));
      if cmp < 0 then (current, false)
      else
        var primary := if PrimaryOf(candidate).Some? then PrimaryOf(candidate) else PrimaryOf(current);
        if cmp == 0 && AddressFields(primary) == AddressFields(PrimaryOf(current)) && ready == Ready(current)
        then (current, false)
        else
          var position := if cmp > 0 then PrimaryPosition(candidate) else PrimaryPosition(current);
          (Some(ReplicationPrimary(position, primary, ready)), true)
  }

  /** The change flag is exact. */
  lemma MergeChangedIsExact(current: Option<ReplicationPrimary>, candidate: Option<ReplicationPrimary>)
    ensures MergeReplicationPrimary(current, candidate).1
            <==> MergeReplicationPrimary(current, candidate).0 != current
  {
  }

  function MergeAll(current: Option<ReplicationPrimary>, observed: seq<Option<ReplicationPrimary>>)
    : Option<ReplicationPrimary>
  {
    if observed == [] then current
    else MergeReplicationPrimary(MergeAll(current, observed[..|observed| - 1]), observed[|observed| - 1]).0
  }

  /** One merge never moves back, and lands on the recorded or the observed position. */
  lemma MergeStep(current: Option<ReplicationPrimary>, candidate: Option<ReplicationPrimary>)
    ensures var merged := MergeReplicationPrimary(current, candidate).0;
            && CompareRulePosition(PrimaryPosition(merged), PrimaryPosition(current)) >= 0
            && (CarriesRule(candidate) ==>
                  CompareRulePosition(PrimaryPosition(merged), PrimaryPosition(candidate)) >= 0)
            && (PrimaryPosition(merged) == PrimaryPosition(current)
                || (CarriesRule(candidate) && PrimaryPosition(merged) == PrimaryPosition(candidate)))
            && (PrimaryOf(current).Some? ==> PrimaryOf(merged).Some?)
  {
  }

  /** Whether an observation counts: it carries a rule and is not behind what is recorded. */
  predicate Counts(current: Option<ReplicationPrimary>, candidate: Option<ReplicationPrimary>) {
    CarriesRule(candidate) && CompareRulePosition(PrimaryPosition(candidate), PrimaryPosition(current)) >= 0
  }

  /** What one merge records. An observation that does not count changes nothing. One that counts gives its address
      if it has one, and its readiness; readiness recorded under another term is forgotten. */
  lemma MergeIsExact(current: Option<ReplicationPrimary>, candidate: Option<ReplicationPrimary>)
    ensures var merged := MergeReplicationPrimary(current, candidate).0;
            && (!Counts(current, candidate) ==> merged == current)
            && (Counts(current, candidate) ==>
                  && PrimaryPosition(merged) ==
                     (if CompareRulePosition(PrimaryPosition(candidate), PrimaryPosition(current)) > 0
                      then PrimaryPosition(candidate) else PrimaryPosition(current))
                  && CompareRulePosition(PrimaryPosition(merged), PrimaryPosition(candidate)) == 0
                  && AddressFields(PrimaryOf(merged)) ==
                     AddressFields(if PrimaryOf(candidate).Some? then PrimaryOf(candidate) else PrimaryOf(current))
                  && (TermOf(candidate) != TermOf(current) ==> Ready(merged) == Ready(candidate))
                  && (TermOf(candidate) == TermOf(current) ==> Ready(merged) == (Ready(candidate) || Ready(current))))
  {
  }

  /** Whatever is observed, the recorded position is the most advanced one seen so far, and a known address is
      never lost. */
  lemma {:induction false} MergeAllKeepsMaximum(
    current: Option<ReplicationPrimary>, observed: seq<Option<ReplicationPrimary>>)
    ensures CompareRulePosition(PrimaryPosition(MergeAll(current, observed)), PrimaryPosition(current)) >= 0
    ensures forall c :: c in observed && CarriesRule(c) ==>
              CompareRulePosition(PrimaryPosition(MergeAll(current, observed)), PrimaryPosition(c)) >= 0
    ensures PrimaryPosition(MergeAll(current, observed)) == PrimaryPosition(current)
            || exists c :: && c in observed && CarriesRule(c)
                           && PrimaryPosition(c) == PrimaryPosition(MergeAll(current, observed))
    ensures PrimaryOf(current).Some? ==> PrimaryOf(MergeAll(current, observed)).Some?
  {
    if observed != [] {
      var init, last := observed[..|observed| - 1], observed[|observed| - 1];
      MergeAllKeepsMaximum(current, init);
      assert observed == init + [last];
      var before, after := PrimaryPosition(MergeAll(current, init)), PrimaryPosition(MergeAll(current, observed));
      MergeStep(MergeAll(current, init), last);
      CompareTransitive(after, before, PrimaryPosition(current));
      forall c | c in observed && CarriesRule(c) ensures CompareRulePosition(after, PrimaryPosition(c)) >= 0 {
        if c in init { CompareTransitive(after, before, PrimaryPosition(c)); }
      }
    }
  }

  /** The recorded address is that of the last observation that had one and was not behind what was recorded. */
  lemma {:induction false} MergeAllRecordsLatestAddress(
    current: Option<ReplicationPrimary>, observed: seq<Option<ReplicationPrimary>>, i: nat)
    requires i < |observed| && Counts(MergeAll(current, observed[..i]), observed[i]) && PrimaryOf(observed[i]).Some?
    requires forall j :: i < j < |observed| && Counts(observed[i], observed[j]) ==> PrimaryOf(observed[j]).None?
    ensures AddressFields(PrimaryOf(MergeAll(current, observed))) == AddressFields(PrimaryOf(observed[i]))
    ensures CompareRulePosition(PrimaryPosition(MergeAll(current, observed)), PrimaryPosition(observed[i])) >= 0
  {
    hide MergeReplicationPrimary, AddressFields, CarriesRule, CompareRulePosition;
    var init, last := observed[..|observed| - 1], observed[|observed| - 1];
    var before := MergeAll(current, init);
    MergeIsExact(before, last);
    if i == |init| {
      CompareFlip(PrimaryPosition(last), PrimaryPosition(MergeAll(current, observed)));
    } else {
      assert observed[..i] == init[..i] && observed[i] == init[i];
      MergeAllRecordsLatestAddress(current, init, i);
      MergeStep(before, last);
      CompareTransitive(PrimaryPosition(MergeAll(current, observed)), PrimaryPosition(before),
                        PrimaryPosition(observed[i]));
      if Counts(before, last) {
        CompareTransitive(PrimaryPosition(last), PrimaryPosition(before), PrimaryPosition(observed[i]));
        assert Counts(observed[i], last);
      }
    }
  }

  /** Within one coordinator term rewind readiness only turns on, and only because someone reported it,
      whichever mix of proposals and decisions of that term is observed. */
  lemma {:induction false} MergeAllKeepsRewindReady(
    current: Option<ReplicationPrimary>, observed: seq<Option<ReplicationPrimary>>)
    requires forall c :: c in observed ==> TermOf(c) == TermOf(current)
    ensures TermOf(MergeAll(current, observed)) == TermOf(current)
    ensures Ready(current) ==> Ready(MergeAll(current, observed))
    ensures Ready(MergeAll(current, observed)) ==> Ready(current) || exists c :: c in observed && Ready(c)
  {
    if observed != [] {
      var init, last := observed[..|observed| - 1], observed[|observed| - 1];
      assert observed == init + [last];
      MergeAllKeepsRewindReady(current, init);
      assert TermOf(last) == TermOf(current) by { assert last in observed; }
      MergeStep(MergeAll(current, init), last);
    }
  }
}
