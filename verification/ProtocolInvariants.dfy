/** What every reachable state of the protocol keeps. */
module ProtocolInvariants {
  import opened Types
  import opened Compare
  import opened Policy
  import opened Durability
  import opened Revocation
  import opened Proposals
  import opened Failover
  import opened Protocol

  // ---------------------------------------------------------------- WALs only move forward

  lemma Numbering(wal: Wal)
    requires WellFormed(wal)
    ensures PositionAt(wal).proposal.Some? ==>
              CompareRuleNumbers(NumberOf(PositionAt(wal).proposal), NumberOf(PositionAt(wal).decision)) > 0
    ensures LastRule(wal) == NumberOf(if PositionAt(wal).proposal.Some? then PositionAt(wal).proposal
                                      else PositionAt(wal).decision)
    ensures CompareRuleNumbers(DecidedNumber(wal), LastRule(wal)) <= 0
  {
    if wal != [] { Numbering(wal[..|wal| - 1]); }
  }

  lemma AppendAdvances(wal: Wal, e: Entry)
    requires WellFormed(wal) && Follows(PositionAt(wal), e)
    ensures WellFormed(wal + [e])
    ensures PositionAt(wal + [e]) == match e
                                     case Propose(rule) => PositionAt(wal).(proposal := Some(rule))
                                     case Decide => RulePosition(PositionAt(wal).proposal, None)
                                     case Write(_) => PositionAt(wal)
    ensures CompareRulePosition(Some(PositionAt(wal + [e])), Some(PositionAt(wal))) >= 0
    ensures CompareRuleNumbers(LastRule(wal + [e]), LastRule(wal)) >= 0
    ensures LastRule(wal + [e]) == if e.Propose? then e.rule.number else LastRule(wal)
  {
    assert (wal + [e])[..|wal|] == wal;
    Numbering(wal);
  }

  lemma LastEntryFollows(wal: Wal) returns (init: Wal, e: Entry)
    requires WellFormed(wal) && wal != []
    ensures wal == init + [e] && |init| == |wal| - 1 && WellFormed(init) && Follows(PositionAt(init), e)
  {
    init, e := wal[..|wal| - 1], wal[|wal| - 1];
    hide PositionAt;
  }

  /** A longer WAL is at a position at least as advanced, and its last rule is at least as high. */
  lemma {:induction false} PrefixIsBehind(p: Wal, wal: Wal)
    requires WellFormed(wal) && p <= wal
    ensures WellFormed(p)
    ensures ComparePoolerPosition(At(wal), At(p)) >= 0
    ensures CompareRulePosition(Some(PositionAt(wal)), Some(PositionAt(p))) >= 0
    ensures CompareRuleNumbers(LastRule(wal), LastRule(p)) >= 0
    decreases |wal|
  {
    if |p| < |wal| {
      var init := wal[..|wal| - 1];
      assert wal == init + [wal[|wal| - 1]] && p <= init;
      PrefixIsBehind(p, init);
      AppendAdvances(init, wal[|wal| - 1]);
      CompareTransitive(Some(PositionAt(wal)), Some(PositionAt(init)), Some(PositionAt(p)));
      hide PositionAt;
    } else {
      assert p == wal;
    }
  }

  /** Of two prefixes of one WAL, the one that compares ahead is the longer. */
  lemma AheadIsLonger(a: Wal, b: Wal, wal: Wal)
    requires WellFormed(wal) && a <= wal && b <= wal
    requires ComparePoolerPosition(At(a), At(b)) >= 0
    ensures b <= a
  {
    if |a| < |b| {
      assert a <= b;
      PrefixIsBehind(b, wal);
      PrefixIsBehind(a, b);
      hide PositionAt, LastRule;
      CompareFlip(Some(PositionAt(a)), Some(PositionAt(b)));
    }
  }

  // ---------------------------------------------------------------- the invariant

  /** After its start a tenure only finishes what was stuck, then writes rules of its own term. */
  ghost predicate Shaped(t: Tenure, wal: Wal) {
    LastRule(wal).term == Term(t) || wal == t.start || wal == t.start + [Decide]
  }

  ghost predicate TenureOk(t: Tenure, genesis: Wal, first: bool) {
    && WellFormed(t.log) && t.start <= t.log && genesis <= t.start
    && t.opening.number.term == Term(t)
    && (forall j :: |t.start| <= j <= |t.log| ==> Shaped(t, t.log[..j]))
    && (first ==> LastRule(t.start).term == Term(t))
    && (!first ==> LastRule(t.start).term < Term(t) && LastRule(t.start) == OutgoingOf(Some(t.rev)))
  }

  ghost predicate NodeOk(k: string, n: Node, s: State, genesis: Wal) {
    && ClusterKey(n.id) == k
    && n.source < |s.tenures| && n.wal <= s.tenures[n.source].log && genesis <= n.wal
    && (n.promise.Some? ==> OutgoingOf(n.promise).term < TermOfRevocation(n.promise))
  }

  function Genesis(run: Run): Wal {
    if |run.states| > 0 && |run.states[0].tenures| > 0 then run.states[0].tenures[0].log else []
  }

  ghost predicate StateOk(s: State, genesis: Wal) {
    && |s.tenures| > 0
    && (forall t :: 0 <= t < |s.tenures| ==> TenureOk(s.tenures[t], genesis, t == 0))
    && (forall k :: k in s.nodes ==> NodeOk(k, s.nodes[k], s, genesis))
  }

  lemma GenesisOk(s: State)
    requires Init(s)
    ensures |s.tenures| > 0 && StateOk(s, s.tenures[0].log)
  {
    var t := s.tenures[0];
    AppendAdvances([], Propose(t.opening));
    AppendAdvances([] + [Propose(t.opening)], Decide);
    assert t.log == [] + [Propose(t.opening)] + [Decide] && t.log[..|t.log|] == t.log;
  }

  /** A WAL that contains the initial decision compares ahead of anything shorter than it. */
  lemma KeepsGenesis(genesis: Wal, wal: Wal, q: Wal, log: Wal, s: State)
    requires Init(s) && genesis == s.tenures[0].log
    requires WellFormed(wal) && genesis <= wal && genesis <= log && q <= log
    requires ComparePoolerPosition(At(q), At(wal)) >= 0
    ensures genesis <= q
  {
    var rule := s.tenures[0].opening;
    assert genesis[..0] == [] && genesis[..1] == [Propose(rule)] && genesis[..1][..0] == [];
    assert PositionAt(genesis) == RulePosition(Some(rule), None);
    if |q| < 2 {
      PrefixIsBehind(genesis, wal);
    }
  }

  lemma AppendKeepsTenure(t: Tenure, e: Entry, genesis: Wal, first: bool)
    requires TenureOk(t, genesis, first) && Follows(PositionAt(t.log), e)
    requires match e
             case Decide => true
             case Propose(rule) =>
               if DecidedNumber(t.log).term < Term(t) then rule == t.opening
               else rule.number == RuleNumber(Term(t), DecidedNumber(t.log).subterm + 1)
             case Write(_) => DecidedNumber(t.log).term == Term(t)
    ensures TenureOk(t.(log := t.log + [e]), genesis, first)
  {
    var t' := t.(log := t.log + [e]);
    AppendAdvances(t.log, e);
    Numbering(t.log);
    assert Shaped(t, t.log) by { assert t.log[..|t.log|] == t.log; }
    hide PositionAt;
    forall j | |t'.start| <= j <= |t'.log| ensures Shaped(t', t'.log[..j]) {
      if j <= |t.log| {
        assert t'.log[..j] == t.log[..j];
      } else {
        assert t'.log[..j] == t.log + [e];
      }
    }
  }

  // ---------------------------------------------------------------- what starting a tenure establishes

  /** The evidence behind a tenure: its recruits, each a past snapshot of a node that promised its round, with
      a WAL no further than the one the tenure starts from. */
  ghost predicate Snapshot(run: Run, rev: TermRevocation, start: Wal, k: string, b: nat) {
    && b < |run.states| && k in run.states[b].nodes
    && run.states[b].nodes[k].promise == Some(rev)
    && ComparePoolerPosition(At(start), At(run.states[b].nodes[k].wal)) >= 0
  }

  ghost predicate Held(run: Run, wal: Wal, k: string, b: nat) {
    b < |run.states| && k in run.states[b].nodes && run.states[b].nodes[k].wal == wal
  }

  /** A round found the rule position a WAL records: its recruits froze the decision and, if a proposal is
      outstanding, can finish it. */
  ghost predicate Froze(pos: RulePosition, recruits: set<string>) {
    && PolicyOf(pos.decision).Ok? && Frozen(InForce(pos.decision), recruits)
    && (!IsRuleDecided(Some(pos)) ==>
          PolicyOf(pos.proposal).Ok? && CanFinish(InForce(pos.decision), InForce(pos.proposal), recruits))
  }

  /** The recruits can make a write durable under the rule the tenure opens with. */
  ghost predicate CanOpen(opening: ShardRule, recruits: set<string>) {
    && PolicyOf(Some(opening)).Ok?
    && Satisfies(PolicyOf(Some(opening)).value, recruits * Keys(opening.cohort))
  }

  /** The step that started tenure `u`: everything it rests on happened by time `c`. */
  ghost predicate StartedAt(run: Run, u: nat, rev: TermRevocation, start: Wal, c: nat, recruits: set<string>) {
    && c < |run.actions| && run.actions[c].Promote?
    && c + 1 < |run.states| && |run.states[c].tenures| == u && |run.states[c + 1].tenures| == u + 1
    && rev == run.actions[c].rev
    && (forall k :: k in recruits ==> exists b: nat :: b <= c && Snapshot(run, rev, start, k, b))
    && (exists k, b: nat :: b <= c && Held(run, start, k, b) && run.states[b].nodes[k].promise == Some(rev))
    && Froze(PositionAt(start), recruits) && CanOpen(run.states[c + 1].tenures[u].opening, recruits)
    && OutgoingOf(Some(rev)) == LastRule(start)
  }

  lemma SnapshotIndex(run: Run, i: nat, cs: ConsensusStatus) returns (b: nat, k: string)
    requires Valid(run) && i < |run.actions| && run.actions[i].Promote? && cs in run.actions[i].statuses
    ensures b <= i && k in run.states[b].nodes && cs == StatusOf(run.states[b].nodes[k])
  {
    assert Step(run, i);
    b, k :| 0 <= b <= i && k in run.states[b].nodes && cs == StatusOf(run.states[b].nodes[k]);
  }

  /** A promotion, read off the step. */
  lemma Promotion(run: Run, i: nat)
    requires Valid(run) && i < |run.actions| && run.actions[i].Promote?
    ensures var a, s, s' := run.actions[i], run.states[i], run.states[i + 1];
            && BuildSafeProposal(Some(a.rev), a.statuses, a.builder).Ok?
            && a.at <= i && a.key in run.states[a.at].nodes
            && LeadsFrom(StatusOf(run.states[a.at].nodes[a.key]),
                         RoundRecruits(a.rev, a.statuses), RoundPosition(a.rev, a.statuses))
            && s'.nodes == s.nodes && |s'.tenures| == |s.tenures| + 1
            && s'.tenures[..|s.tenures|] == s.tenures
            && (forall t :: 0 < t < |s.tenures| ==> !SameRound(s.tenures[t].rev, a.rev))
            && var t := s'.tenures[|s.tenures|];
               t.rev == a.rev && t.start == t.log == run.states[a.at].nodes[a.key].wal
               && t.opening.number == RuleNumber(a.rev.revokedBelowTerm, 0)
  {
    hide BuildSafeProposal, LeadsFrom, RoundRecruits, RoundPosition;
    assert Step(run, i);
  }

  ghost predicate KeyedNodes(run: Run, i: nat) {
    i < |run.states| &&
    forall b, k :: 0 <= b <= i && k in run.states[b].nodes ==> ClusterKey(run.states[b].nodes[k].id) == k
  }

  lemma RecruitSnapshots(run: Run, i: nat, t: Tenure, k: string)
    requires Valid(run) && i < |run.actions| && run.actions[i].Promote? && KeyedNodes(run, i)
    requires |run.states[i + 1].tenures| > 0 && t == run.states[i + 1].tenures[|run.states[i + 1].tenures| - 1]
    requires k in StatusKeys(RoundRecruits(run.actions[i].rev, run.actions[i].statuses))
    ensures exists b: nat :: b <= i && Snapshot(run, t.rev, t.start, k, b)
  {
    hide BuildSafeProposal, RoundRecruits, RoundPosition, StatusKeys, CompareRulePosition, ComparePoolerPosition,
      PositionAt, HasValidPosition, Step, Valid, SameRound;
    var a := run.actions[i];
    Promotion(run, i);
    RecruitsAccepted(a.rev, a.statuses);
    var cs := KeyedStatus(RoundRecruits(a.rev, a.statuses), k);
    var b, j := SnapshotIndex(run, i, cs);
    assert Snapshot(run, t.rev, t.start, j, b) && j == k;
  }

  lemma OpeningIsDurable(run: Run, i: nat)
    requires Valid(run) && i < |run.actions| && run.actions[i].Promote?
    ensures var a, u := run.actions[i], |run.states[i].tenures|;
            && u < |run.states[i + 1].tenures|
            && CanOpen(run.states[i + 1].tenures[u].opening, StatusKeys(RoundRecruits(a.rev, a.statuses)))
  {
    hide BuildSafeProposal, RoundRecruits, RoundPosition, StatusKeys, Keys, LeadsFrom, IsRuleDecided, SameCohort,
      CompareRuleNumbers, PossiblyUndecidedRule, SameRound, At;
    assert Step(run, i);
    var a := run.actions[i];
    ProposalKeepsItsWord(a.rev, a.statuses, a.builder);
  }

  lemma PromoteEvidence(run: Run, i: nat) returns (recruits: set<string>)
    requires Valid(run) && i < |run.actions| && run.actions[i].Promote? && KeyedNodes(run, i)
    ensures |run.states[i + 1].tenures| == |run.states[i].tenures| + 1
    ensures var u := |run.states[i].tenures|;
            var t := run.states[i + 1].tenures[u];
            StartedAt(run, u, t.rev, t.start, i, recruits)
  {
    hide BuildSafeProposal, RoundRecruits, RoundPosition, StatusKeys, Frozen, CanFinish, PolicyOf, InForce,
      PositionAt, PossiblyUndecidedRule, IsRuleDecided, Step, Valid, Snapshot, LeadsFrom, CanOpen;
    var a, u := run.actions[i], |run.states[i].tenures|;
    assert |run.states| == |run.actions| + 1 by { Lengths(run); }
    Promotion(run, i);
    var t := run.states[i + 1].tenures[u];
    recruits := StatusKeys(RoundRecruits(a.rev, a.statuses));
    forall k | k in recruits ensures exists b: nat :: b <= i && Snapshot(run, t.rev, t.start, k, b) {
      RecruitSnapshots(run, i, t, k);
    }
    assert Held(run, t.start, a.key, a.at);
    LeaderPromised(run, i);
    OpeningIsDurable(run, i);
  }

  lemma Lengths(run: Run)
    requires Valid(run)
    ensures |run.states| == |run.actions| + 1 && Init(run.states[0])
    ensures forall i :: 0 <= i < |run.actions| && run.actions[i].Promote? ==> run.actions[i].at <= i
  {
    forall i | 0 <= i < |run.actions| && run.actions[i].Promote? ensures run.actions[i].at <= i { Promotion(run, i); }
  }

  lemma LeaderPromised(run: Run, i: nat)
    requires Valid(run) && i < |run.actions| && run.actions[i].Promote?
    ensures var a := run.actions[i];
            && a.at <= i && a.key in run.states[a.at].nodes
            && var n := run.states[a.at].nodes[a.key];
               && n.promise == Some(a.rev) && LastRule(n.wal) == OutgoingOf(Some(a.rev))
               && Froze(PositionAt(n.wal), StatusKeys(RoundRecruits(a.rev, a.statuses)))
  {
    var a := run.actions[i];
    Promotion(run, i);
    var _ := SafeRound(a.rev, a.statuses, a.builder);
    RecruitsAccepted(a.rev, a.statuses);
    hide BuildSafeProposal, RoundRecruits, RoundPosition, Frozen, CanFinish, StatusKeys, PolicyOf, InForce,
      ComparePoolerPosition, PositionAt, HasValidPosition, PossiblyUndecidedRule, IsRuleDecided, Step, Valid;
  }

  // ---------------------------------------------------------------- every step keeps the invariant

  lemma NodesFollowTenures(s: State, s': State, genesis: Wal)
    requires StateOk(s, genesis) && s'.nodes == s.nodes && |s'.tenures| >= |s.tenures|
    requires forall t :: 0 <= t < |s.tenures| ==> s.tenures[t].log <= s'.tenures[t].log
    ensures forall k :: k in s'.nodes ==> NodeOk(k, s'.nodes[k], s', genesis)
  {
    forall k | k in s'.nodes ensures NodeOk(k, s'.nodes[k], s', genesis) {
      assert NodeOk(k, s.nodes[k], s, genesis);
    }
  }

  lemma RecruitKeeps(run: Run, i: nat)
    requires Valid(run) && i < |run.actions| && run.actions[i].Recruit?
    requires StateOk(run.states[i], Genesis(run))
    ensures StateOk(run.states[i + 1], Genesis(run))
  {
    hide TenureOk, IsRuleRevoked, WellFormed, PositionAt;
    assert Step(run, i);
    var s, s', k := run.states[i], run.states[i + 1], run.actions[i].key;
    assert NodeOk(k, s.nodes[k], s, Genesis(run));
    assert NodeOk(k, s'.nodes[k], s', Genesis(run));
    forall j | j in s'.nodes && j != k ensures NodeOk(j, s'.nodes[j], s', Genesis(run)) {
      assert NodeOk(j, s.nodes[j], s, Genesis(run));
    }
  }

  lemma PromoteKeeps(run: Run, i: nat)
    requires Valid(run) && i < |run.actions| && run.actions[i].Promote?
    requires StateOk(run.states[i], Genesis(run))
    requires run.actions[i].at <= i && StateOk(run.states[run.actions[i].at], Genesis(run))
    ensures StateOk(run.states[i + 1], Genesis(run))
  {
    hide BuildSafeProposal, LeadsFrom, RoundRecruits, RoundPosition, WellFormed, PositionAt, LastRule, Step,
      SameRound, ComparePoolerPosition, CompareRulePosition, CompareRuleNumbers, Valid, Froze, StatusKeys;
    Lengths(run);
    var a, s, s', genesis := run.actions[i], run.states[i], run.states[i + 1], Genesis(run);
    Promotion(run, i);
    LeaderPromised(run, i);
    var past := run.states[a.at];
    var n, t := past.nodes[a.key], s'.tenures[|s.tenures|];
    assert NodeOk(a.key, n, past, genesis);
    assert TenureOk(past.tenures[n.source], genesis, n.source == 0);
    PrefixIsBehind(t.start, past.tenures[n.source].log);
    assert t.log[..|t.log|] == t.start;
    assert TenureOk(t, genesis, false);
    assert forall j :: 0 <= j < |s.tenures| ==> s'.tenures[j] == s.tenures[j];
    NodesFollowTenures(s, s', genesis);
  }

  lemma AppendKeeps(run: Run, i: nat)
    requires Valid(run) && i < |run.actions| && run.actions[i].Append?
    requires StateOk(run.states[i], Genesis(run))
    ensures StateOk(run.states[i + 1], Genesis(run))
  {
    hide WriteQuorum, AckedBy, WellFormed, PositionAt, Follows, Shaped;
    assert Step(run, i);
    var s, s', t := run.states[i], run.states[i + 1], run.actions[i].tenure;
    assert TenureOk(s.tenures[t], Genesis(run), t == 0);
    AppendKeepsTenure(s.tenures[t], run.actions[i].entry, Genesis(run), t == 0);
    assert s'.tenures[t] == s.tenures[t].(log := s.tenures[t].log + [run.actions[i].entry]);
    NodesFollowTenures(s, s', Genesis(run));
  }

  lemma ReplicateKeeps(run: Run, i: nat)
    requires Valid(run) && i < |run.actions| && run.actions[i].Replicate?
    requires StateOk(run.states[i], Genesis(run))
    ensures StateOk(run.states[i + 1], Genesis(run))
  {
    hide WellFormed, PositionAt, Shaped, Delivered, IsRuleRevoked, ComparePoolerPosition;
    assert Step(run, i);
    var s, s', a := run.states[i], run.states[i + 1], run.actions[i];
    var n, log := s.nodes[a.key], s.tenures[a.tenure].log;
    assert NodeOk(a.key, n, s, Genesis(run));
    assert TenureOk(s.tenures[n.source], Genesis(run), n.source == 0);
    assert TenureOk(s.tenures[a.tenure], Genesis(run), a.tenure == 0);
    PrefixIsBehind(n.wal, s.tenures[n.source].log);
    KeepsGenesis(Genesis(run), n.wal, log[..a.length], log, run.states[0]);
    assert NodeOk(a.key, s'.nodes[a.key], s', Genesis(run));
    forall j | j in s'.nodes && j != a.key ensures NodeOk(j, s'.nodes[j], s', Genesis(run)) {
      assert NodeOk(j, s.nodes[j], s, Genesis(run));
    }
  }

  lemma {:induction false} EveryStateOk(run: Run, i: nat)
    requires Valid(run) && i < |run.states|
    ensures StateOk(run.states[i], Genesis(run))
  {
    hide StateOk, Step, Valid, Init;
    Lengths(run);
    if i == 0 {
      GenesisOk(run.states[0]);
    } else {
      EveryStateOk(run, i - 1);
      match run.actions[i - 1]
      case Recruit(_, _) => RecruitKeeps(run, i - 1);
      case Promote(_, _, _, _, at) =>
        EveryStateOk(run, at);
        PromoteKeeps(run, i - 1);
      case Append(_, _, _) => AppendKeeps(run, i - 1);
      case Replicate(_, _, _, _) => ReplicateKeeps(run, i - 1);
    }
  }

  // ---------------------------------------------------------------- what never goes back

  /** From one state to a later one: nodes stay, WALs advance, promises hold, tenures only grow. */
  ghost predicate Grows(s: State, s': State) {
    && s.nodes.Keys == s'.nodes.Keys
    && |s.tenures| <= |s'.tenures|
    && (forall t :: 0 <= t < |s.tenures| ==>
          s.tenures[t].log <= s'.tenures[t].log && s'.tenures[t] == s.tenures[t].(log := s'.tenures[t].log))
    && (forall k :: k in s.nodes ==>
          && ComparePoolerPosition(At(s'.nodes[k].wal), At(s.nodes[k].wal)) >= 0
          && NoWeaker(s.nodes[k].promise, s'.nodes[k].promise))
  }

  lemma StepGrows(run: Run, i: nat)
    requires Valid(run) && i < |run.actions|
    ensures Grows(run.states[i], run.states[i + 1])
  {
    hide MayAppend, PositionAt, Delivered, IsRuleRevoked, NoWeaker, ComparePoolerPosition, Accepts,
      BuildSafeProposal, LeadsFrom, RoundRecruits, RoundPosition, SameRound, At;
    assert Step(run, i);
    var s, s' := run.states[i], run.states[i + 1];
    forall k | k in s.nodes
      ensures k in s'.nodes && NoWeaker(s.nodes[k].promise, s'.nodes[k].promise)
      ensures ComparePoolerPosition(At(s'.nodes[k].wal), At(s.nodes[k].wal)) >= 0
    {
      NodeGrows(run, i, k);
    }
    if run.actions[i].Promote? { Promotion(run, i); }
  }

  lemma NodeGrows(run: Run, i: nat, k: string)
    requires Valid(run) && i < |run.actions| && k in run.states[i].nodes
    ensures k in run.states[i + 1].nodes
    ensures var n, n' := run.states[i].nodes[k], run.states[i + 1].nodes[k];
            NoWeaker(n.promise, n'.promise) && ComparePoolerPosition(At(n'.wal), At(n.wal)) >= 0
  {
    hide MayAppend, PositionAt, Delivered, IsRuleRevoked, NoWeaker, ComparePoolerPosition, Accepts,
      BuildSafeProposal, LeadsFrom, RoundRecruits, RoundPosition, SameRound;
    assert Step(run, i);
    if run.actions[i].Promote? { Promotion(run, i); }
    var n, n' := run.states[i].nodes[k], run.states[i + 1].nodes[k];
    StepKeepsPromise(StatusOf(n), StatusOf(n'));
    PoolerCompareFlip(At(n.wal), At(n.wal));
  }

  lemma GrowsTransitively(a: State, b: State, c: State)
    requires Grows(a, b) && Grows(b, c)
    ensures Grows(a, c)
  {
    hide NoWeaker, PositionAt, ComparePoolerPosition;
    forall k | k in a.nodes
      ensures ComparePoolerPosition(At(c.nodes[k].wal), At(a.nodes[k].wal)) >= 0
      ensures NoWeaker(a.nodes[k].promise, c.nodes[k].promise)
    {
      PoolerCompareTransitive(At(c.nodes[k].wal), At(b.nodes[k].wal), At(a.nodes[k].wal));
      NoWeakerTransitive(a.nodes[k].promise, b.nodes[k].promise, c.nodes[k].promise);
    }
  }

  lemma {:induction false} RunGrows(run: Run, i: nat, j: nat)
    requires Valid(run) && i <= j < |run.states|
    ensures Grows(run.states[i], run.states[j])
    decreases j
  {
    hide Grows, Step;
    if i == j {
      GrowsReflexively(run.states[i]);
    } else {
      RunGrows(run, i, j - 1);
      StepGrows(run, j - 1);
      GrowsTransitively(run.states[i], run.states[j - 1], run.states[j]);
    }
  }

  lemma GrowsReflexively(s: State)
    ensures Grows(s, s)
  {
    hide IsRuleRevoked, PositionAt;
  }
}
