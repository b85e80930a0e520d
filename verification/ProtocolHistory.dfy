/** What any run of the protocol records: where WALs come from, who wrote and acknowledged what, and when. */
module ProtocolHistory {
  import opened Types
  import opened Compare
  import opened Durability
  import opened Revocation
  import opened Proposals
  import opened Failover
  import opened Protocol
  import opened ProtocolInvariants

  // ---------------------------------------------------------------- tenures

  function Tenures(run: Run): seq<Tenure> {
    if |run.states| > 0 then run.states[|run.states| - 1].tenures else []
  }

  lemma {:induction false} DecisionWasProposed(wal: Wal)
    ensures PositionAt(wal).decision.Some? ==>
      exists j :: 0 <= j < |wal| && wal[j] == Propose(PositionAt(wal).decision.value)
    ensures PositionAt(wal).proposal.Some? ==>
      exists j :: 0 <= j < |wal| && wal[j] == Propose(PositionAt(wal).proposal.value)
  {
    if wal != [] {
      assert wal == wal[..|wal| - 1] + [wal[|wal| - 1]];
      DecisionWasProposed(wal[..|wal| - 1]);
    }
  }

  /** A WAL held anywhere in the run is a prefix of a tenure's final log. */
  lemma HeldInTenure(run: Run, wal: Wal, k: string, b: nat) returns (v: nat)
    requires Valid(run) && Held(run, wal, k, b)
    ensures v < |run.states[b].tenures| <= |Tenures(run)|
    ensures wal <= Tenures(run)[v].log && Genesis(run) <= wal
  {
    EveryStateOk(run, b);
    RunGrows(run, b, |run.states| - 1);
    hide TenureOk, Step, NoWeaker, ComparePoolerPosition;
    var n := run.states[b].nodes[k];
    assert NodeOk(k, n, run.states[b], Genesis(run));
    v := n.source;
  }

  lemma TenureFacts(run: Run, t: nat)
    requires Valid(run) && t < |Tenures(run)|
    ensures TenureOk(Tenures(run)[t], Genesis(run), t == 0)
    ensures t == 0 ==> Tenures(run)[0].start == Genesis(run)
    ensures |run.states| > 0
  {
    EveryStateOk(run, |run.states| - 1);
    RunGrows(run, 0, |run.states| - 1);
    hide TenureOk, Step, NoWeaker, ComparePoolerPosition;
  }

  lemma {:induction false} StartOf(run: Run, u: nat, i: nat) returns (c: nat, recruits: set<string>)
    requires Valid(run) && i < |run.states| && 0 < u < |run.states[i].tenures|
    ensures c < i && StartedAt(run, u, run.states[i].tenures[u].rev, run.states[i].tenures[u].start, c, recruits)
    decreases i
  {
    hide Step, StartedAt, Init, Grows;
    Lengths(run);
    assert |run.states[0].tenures| == 1 by { InitialTenures(run); }
    TenureCountStep(run, i - 1);
    if u < |run.states[i - 1].tenures| {
      c, recruits := StartOf(run, u, i - 1);
    } else {
      KeyedEverywhere(run, i - 1);
      recruits := PromoteEvidence(run, i - 1);
      c := i - 1;
    }
  }

  lemma InitialTenures(run: Run)
    requires Valid(run)
    ensures |run.states[0].tenures| == 1
  {
  }

  lemma TenureCountStep(run: Run, i: nat)
    requires Valid(run) && i < |run.actions|
    ensures |run.states[i].tenures| <= |run.states[i + 1].tenures| <= |run.states[i].tenures| + 1
    ensures |run.states[i + 1].tenures| > |run.states[i].tenures| ==> run.actions[i].Promote?
    ensures forall t :: 0 <= t < |run.states[i].tenures| ==>
              && run.states[i + 1].tenures[t].rev == run.states[i].tenures[t].rev
              && run.states[i + 1].tenures[t].start == run.states[i].tenures[t].start
  {
    hide BuildSafeProposal, LeadsFrom, RoundRecruits, RoundPosition, MayAppend, IsRuleRevoked, Delivered,
      ComparePoolerPosition, NoWeaker;
    assert Step(run, i);
    if run.actions[i].Promote? { Promotion(run, i); }
    StepGrows(run, i);
  }

  lemma KeyedEverywhere(run: Run, i: nat)
    requires Valid(run) && i < |run.states|
    ensures KeyedNodes(run, i)
  {
    hide TenureOk, Step;
    forall b, k | 0 <= b <= i && k in run.states[b].nodes ensures ClusterKey(run.states[b].nodes[k].id) == k {
      EveryStateOk(run, b);
      assert NodeOk(k, run.states[b].nodes[k], run.states[b], Genesis(run));
    }
  }

  lemma Started(run: Run, u: nat) returns (c: nat, recruits: set<string>)
    requires Valid(run) && 0 < u < |Tenures(run)|
    ensures c + 1 < |run.states| && StartedAt(run, u, Tenures(run)[u].rev, Tenures(run)[u].start, c, recruits)
  {
    hide StartedAt, Step;
    c, recruits := StartOf(run, u, |run.states| - 1);
  }

  /** The WAL a tenure starts from was written by an earlier tenure. */
  lemma StartSource(run: Run, u: nat) returns (v: nat)
    requires Valid(run) && 0 < u < |Tenures(run)|
    ensures v < u && Tenures(run)[u].start <= Tenures(run)[v].log && Genesis(run) <= Tenures(run)[u].start
  {
    var c, recruits := Started(run, u);
    hide Snapshot, Step, Frozen, PositionAt, Froze;
    var k, b: nat :| b <= c && Held(run, Tenures(run)[u].start, k, b);
    v := HeldInTenure(run, Tenures(run)[u].start, k, b);
    RunGrows(run, b, c);
  }

  lemma RecruitSnapshot(run: Run, u: nat, c: nat, recruits: set<string>, k: string) returns (b: nat)
    requires u < |Tenures(run)| && k in recruits
    requires StartedAt(run, u, Tenures(run)[u].rev, Tenures(run)[u].start, c, recruits)
    ensures b <= c < |run.states| && Snapshot(run, Tenures(run)[u].rev, Tenures(run)[u].start, k, b)
  {
    hide Froze, PositionAt, PolicyOf, Snapshot, Held;
    var b': nat :| b' <= c && Snapshot(run, Tenures(run)[u].rev, Tenures(run)[u].start, k, b');
    b := b';
  }

  lemma PromisesOrdered(run: Run, k: string, b: nat, b': nat, rev: TermRevocation, rev': TermRevocation)
    requires Valid(run) && b < |run.states| && b' < |run.states|
    requires k in run.states[b].nodes && run.states[b].nodes[k].promise == Some(rev)
    requires k in run.states[b'].nodes && run.states[b'].nodes[k].promise == Some(rev')
    ensures NoWeaker(Some(rev), Some(rev')) || NoWeaker(Some(rev'), Some(rev))
  {
    hide Step, NoWeaker, ComparePoolerPosition;
    if b <= b' { RunGrows(run, b, b'); } else { RunGrows(run, b', b); }
  }

  /** The initial rule is the lowest there is, and its term the lowest term. */
  lemma AboveGenesis(run: Run, wal: Wal, log: Wal)
    requires Valid(run) && WellFormed(log) && wal <= log && Genesis(run) <= wal && |Tenures(run)| > 0
    ensures CompareRuleNumbers(LastRule(wal), LastRule(Genesis(run))) >= 0
    ensures LastRule(Genesis(run)).term == Term(Tenures(run)[0])
    ensures !IsUnset(LastRule(wal))
  {
    TenureFacts(run, 0);
    PrefixIsBehind(wal, log);
    PrefixIsBehind(Genesis(run), wal);
    GenesisRule(run);
    hide WellFormed, PositionAt, Shaped, LastRule;
  }

  lemma GenesisRule(run: Run)
    requires Valid(run)
    ensures !IsUnset(LastRule(Genesis(run)))
  {
    hide Step;
    var opening := run.states[0].tenures[0].opening;
    AppendAdvances([], Propose(opening));
    AppendAdvances([] + [Propose(opening)], Decide);
    assert Genesis(run) == [] + [Propose(opening)] + [Decide];
  }

  lemma FreshRound(run: Run, t: nat, u: nat, c: nat)
    requires Valid(run) && 0 < t < u < |Tenures(run)|
    requires c < |run.actions| && run.actions[c].Promote? && |run.states[c].tenures| == u
    requires Tenures(run)[u].rev == run.actions[c].rev
    ensures !SameRound(Tenures(run)[t].rev, Tenures(run)[u].rev)
  {
    hide BuildSafeProposal, LeadsFrom, RoundRecruits, RoundPosition, NoWeaker, ComparePoolerPosition, Step,
      SameRound, Valid;
    Lengths(run);
    Promotion(run, c);
    RunGrows(run, c, |run.states| - 1);
    assert Tenures(run)[t].rev == run.states[c].tenures[t].rev;
  }

  // ---------------------------------------------------------------- where a WAL comes from

  lemma DecideKeepsLastRule(wal: Wal)
    requires WellFormed(wal + [Decide])
    ensures WellFormed(wal) && LastRule(wal + [Decide]) == LastRule(wal)
    ensures DecidedNumber(wal + [Decide]) == LastRule(wal)
    ensures Numbers(Some(PositionAt(wal + [Decide]))).proposal == UNSET
  {
    assert (wal + [Decide])[..|wal|] == wal;
    AppendAdvances(wal, Decide);
    Numbering(wal);
    Numbering(wal + [Decide]);
  }

  /** A WAL with own-term rules reaches past the tenure's start. */
  lemma OwnIsPastStart(t: Tenure, genesis: Wal, wal: Wal)
    requires TenureOk(t, genesis, false) && wal <= t.log && LastRule(wal).term == Term(t)
    ensures t.start <= wal && |t.start| < |wal|
  {
    if |wal| <= |t.start| {
      assert wal <= t.start;
      PrefixIsBehind(t.start, t.log);
      PrefixIsBehind(wal, t.start);
      hide PositionAt, WellFormed;
    }
  }

  lemma LastTermAtMost(t: Tenure, genesis: Wal, first: bool, wal: Wal)
    requires TenureOk(t, genesis, first) && wal <= t.log
    ensures WellFormed(wal) && LastRule(wal).term <= Term(t)
  {
    hide PositionAt, WellFormed, LastRule;
    assert Shaped(t, t.log) by { assert t.log[..|t.log|] == t.log; }
    if t.log == t.start + [Decide] { DecideKeepsLastRule(t.start); }
    PrefixIsBehind(wal, t.log);
  }

  lemma ProposalAtMostLast(wal: Wal)
    requires WellFormed(wal)
    ensures Numbers(Some(PositionAt(wal))).proposal.term <= LastRule(wal).term
    ensures DecidedNumber(wal).term <= LastRule(wal).term
  {
    Numbering(wal);
  }

  /** A WAL whose decisions stop at the rule a tenure transitions from is behind that tenure's own history. */
  lemma BehindOwnHistory(a: Wal, p: Wal, outgoing: RuleNumber, term: nat)
    requires WellFormed(a) && WellFormed(p)
    requires CompareRuleNumbers(DecidedNumber(a), outgoing) <= 0 <= CompareRuleNumbers(DecidedNumber(p), outgoing)
    requires LastRule(a).term < term == LastRule(p).term && outgoing.term < term
    ensures ComparePoolerPosition(At(a), At(p)) < 0
  {
    Numbering(a);
    Numbering(p);
    hide PositionAt, WellFormed;
  }

  /** Log matching: a WAL is a prefix of what the owner of its last rule wrote, or it is the start of a later
      tenure `g` followed by the decision that tenure finished. */
  lemma {:induction false} WalShape(run: Run, wal: Wal, v: nat) returns (owner: nat, g: nat)
    requires Valid(run) && v < |Tenures(run)| && Genesis(run) <= wal <= Tenures(run)[v].log
    ensures owner <= v && Term(Tenures(run)[owner]) == LastRule(wal).term
    ensures g == 0 ==> wal <= Tenures(run)[owner].log
    ensures g != 0 ==> g <= v && wal == Tenures(run)[g].start + [Decide]
    decreases v
  {
    hide Step, Valid, PositionAt, WellFormed, LastRule;
    TenureFacts(run, v);
    var t := Tenures(run)[v];
    if LastRule(wal).term == Term(t) {
      owner, g := v, 0;
    } else if v == 0 {
      assert Shaped(t, t.log[..|wal|]) && t.log[..|wal|] == wal;
      PrefixIsBehind(wal, t.log);
      if wal == t.start + [Decide] { DecideKeepsLastRule(t.start); }
      assert false;
    } else {
      var w := StartSource(run, v);
      if |wal| <= |t.start| {
        owner, g := WalShape(run, wal, w);
      } else {
        assert Shaped(t, t.log[..|wal|]) && t.log[..|wal|] == wal;
        PrefixIsBehind(wal, t.log);
        DecideKeepsLastRule(t.start);
        owner, g := WalShape(run, t.start, w);
        g := v;
      }
    }
  }

  /** Before its own rule, a tenure decided the rule it transitions from. */
  lemma {:induction false} OwnDecision(t: Tenure, genesis: Wal, wal: Wal)
    requires TenureOk(t, genesis, false) && wal <= t.log && LastRule(wal).term == Term(t)
    ensures CompareRuleNumbers(DecidedNumber(wal), LastRule(t.start)) >= 0
    ensures DecidedNumber(wal) == LastRule(t.start) || DecidedNumber(wal).term == Term(t)
    decreases |wal|
  {
    hide WellFormed, PositionAt;
    OwnIsPastStart(t, genesis, wal);
    PrefixIsBehind(wal, t.log);
    var init, e := LastEntryFollows(wal);
    assert init <= t.log;
    AppendAdvances(init, e);
    Numbering(init);
    if LastRule(init).term == Term(t) {
      OwnDecision(t, genesis, init);
    } else {
      assert Shaped(t, t.log[..|init|]) && t.log[..|init|] == init;
      if init == t.start + [Decide] { DecideKeepsLastRule(t.start); }
    }
  }

  lemma GenesisDecided(run: Run, wal: Wal)
    requires Valid(run) && Genesis(run) <= wal && WellFormed(wal) && |Tenures(run)| > 0
    requires LastRule(wal).term == Term(Tenures(run)[0])
    ensures DecidedNumber(wal).term == Term(Tenures(run)[0])
  {
    AboveGenesis(run, wal, wal);
    PrefixIsBehind(Genesis(run), wal);
    ProposalAtMostLast(wal);
    InitialDecision(run);
    hide Valid, PositionAt, LastRule, WellFormed;
  }

  lemma InitialDecision(run: Run)
    requires Valid(run)
    ensures DecidedNumber(Genesis(run)) == LastRule(Genesis(run))
  {
    hide Step;
    var opening := run.states[0].tenures[0].opening;
    AppendAdvances([], Propose(opening));
    AppendAdvances([] + [Propose(opening)], Decide);
    assert Genesis(run) == [] + [Propose(opening)] + [Decide];
  }

  // ---------------------------------------------------------------- decisions were acknowledged

  /** Where the decision a WAL records was written. */
  lemma {:induction false} DecideEntry(wal: Wal) returns (x: nat)
    requires WellFormed(wal) && !IsUnset(DecidedNumber(wal))
    ensures x < |wal| && wal[x] == Decide && LastRule(wal[..x]) == DecidedNumber(wal)
    ensures PositionAt(wal[..x]).proposal == PositionAt(wal).decision
  {
    var init, e := wal[..|wal| - 1], wal[|wal| - 1];
    assert wal == init + [e];
    AppendAdvances(init, e);
    Numbering(init);
    if e.Decide? {
      x := |init|;
      assert wal[..x] == init;
    } else {
      x := DecideEntry(init);
      assert wal[..x] == init[..x];
    }
  }

  /** Whatever a tenure wrote past its start, it appended at some step. */
  lemma {:induction false} AppendedAt(run: Run, t: nat, i: nat, x: nat) returns (e: nat)
    requires Valid(run) && i < |run.states| && t < |run.states[i].tenures|
    requires |run.states[i].tenures[t].start| <= x < |run.states[i].tenures[t].log|
    ensures e < i && t < |run.states[e].tenures| && run.actions[e].Append?
    ensures run.actions[e].tenure == t && run.actions[e].entry == run.states[i].tenures[t].log[x]
    ensures run.states[e].tenures[t].log == run.states[i].tenures[t].log[..x]
    decreases i
  {
    hide Step, Valid, Init, MayAppend, StateOk;
    Lengths(run);
    if i == 0 {
      InitialLogIsStart(run, t);
      assert false;
    }
    LogStep(run, t, i - 1);
    if t < |run.states[i - 1].tenures| && x < |run.states[i - 1].tenures[t].log| {
      e := AppendedAt(run, t, i - 1, x);
    } else {
      e := i - 1;
    }
  }

  lemma InitialLogIsStart(run: Run, t: nat)
    requires Valid(run) && t < |run.states[0].tenures|
    ensures run.states[0].tenures[t].log == run.states[0].tenures[t].start
  {
  }

  lemma LogStep(run: Run, t: nat, i: nat)
    requires Valid(run) && i < |run.actions| && t < |run.states[i + 1].tenures|
    ensures t >= |run.states[i].tenures| ==> run.states[i + 1].tenures[t].log == run.states[i + 1].tenures[t].start
    ensures t < |run.states[i].tenures| ==>
              var log, log' := run.states[i].tenures[t].log, run.states[i + 1].tenures[t].log;
              && run.states[i + 1].tenures[t].start == run.states[i].tenures[t].start
              && (log' == log || (run.actions[i].Append? && run.actions[i].tenure == t
                                  && log' == log + [run.actions[i].entry]))
  {
    hide BuildSafeProposal, LeadsFrom, RoundRecruits, RoundPosition, MayAppend, IsRuleRevoked, Delivered,
      ComparePoolerPosition;
    assert Step(run, i);
    if run.actions[i].Promote? { Promotion(run, i); }
  }

  lemma DecidedPastStart(run: Run, i: nat, t: nat, x: nat)
    requires Valid(run) && i < |run.states| && t < |run.states[i].tenures| && x <= |run.states[i].tenures[t].log|
    requires LastRule(run.states[i].tenures[t].log[..x]).term == Term(run.states[i].tenures[t])
    requires CompareRuleNumbers(LastRule(run.states[i].tenures[t].log[..x]), LastRule(Genesis(run))) > 0
    ensures |run.states[i].tenures[t].start| <= x
  {
    EveryStateOk(run, i);
    hide Step, PositionAt, WellFormed, LastRule, Shaped;
    var tenure := run.states[i].tenures[t];
    assert TenureOk(tenure, Genesis(run), t == 0);
    if x < |tenure.start| {
      PrefixIsBehind(tenure.start, tenure.log);
      PrefixIsBehind(tenure.log[..x], tenure.start);
      if t == 0 { GenesisStart(run, i); }
    }
  }

  lemma GenesisStart(run: Run, i: nat)
    requires Valid(run) && i < |run.states|
    ensures |run.states[i].tenures| > 0 && run.states[i].tenures[0].start == Genesis(run)
  {
    RunGrows(run, 0, i);
    hide NoWeaker, ComparePoolerPosition, Step;
  }

  lemma AckedAppend(run: Run, m: nat)
    requires Valid(run) && m < |run.actions| && run.actions[m].Append? && run.actions[m].entry.Decide?
    requires run.actions[m].tenure < |run.states[m].tenures|
    ensures var a := run.actions[m];
            var log := run.states[m].tenures[a.tenure].log;
            WriteQuorum(log, a.nodes) && AckedBy(run, a.tenure, log, a.nodes, m)
  {
    hide WriteQuorum, AckedBy, Follows, PositionAt;
    assert Step(run, m);
  }

  // ---------------------------------------------------------------- acknowledgements

  /** What is acknowledged at `a` was already held at `b`, or adopted from the tenure in between. */
  lemma {:induction false} AdoptedAt(run: Run, t: nat, p: Wal, k: string, b: nat, a: nat) returns (d: nat)
    requires Valid(run) && b <= a && Acked(run, t, p, k, a) && !Acked(run, t, p, k, b)
    ensures b <= d < a && d < |run.actions| && run.actions[d].Replicate?
    ensures run.actions[d].key == k && run.actions[d].tenure == t
    decreases a
  {
    hide Valid, Init;
    Lengths(run);
    if Acked(run, t, p, k, a - 1) {
      d := AdoptedAt(run, t, p, k, b, a - 1);
    } else {
      d := a - 1;
      AdoptingStep(run, t, p, k, d);
    }
  }

  lemma AdoptingStep(run: Run, t: nat, p: Wal, k: string, d: nat)
    requires Valid(run) && d < |run.actions| && Acked(run, t, p, k, d + 1) && !Acked(run, t, p, k, d)
    ensures run.actions[d].Replicate? && run.actions[d].key == k && run.actions[d].tenure == t
  {
    hide BuildSafeProposal, LeadsFrom, RoundRecruits, RoundPosition, MayAppend, IsRuleRevoked, Delivered,
      ComparePoolerPosition, Accepts;
    assert Step(run, d);
    if run.actions[d].Promote? { Promotion(run, d); }
  }

  lemma ReplicateGuard(run: Run, d: nat)
    requires Valid(run) && d < |run.actions| && run.actions[d].Replicate?
    ensures var a, s := run.actions[d], run.states[d];
            && a.key in s.nodes && a.tenure < |s.tenures|
            && Delivered(s.tenures[a.tenure], a.tenure == 0, a.delivered)
            && !IsRuleRevoked(Some(a.delivered), s.nodes[a.key].promise)
  {
    hide Delivered, IsRuleRevoked, ComparePoolerPosition;
    assert Step(run, d);
  }

  lemma StillForbidden(run: Run, k: string, b: nat, d: nat, z: RulePosition)
    requires Valid(run) && b <= d < |run.states| && k in run.states[b].nodes && k in run.states[d].nodes
    requires !IsRuleRevoked(Some(z), run.states[d].nodes[k].promise)
    ensures !IsRuleRevoked(Some(z), run.states[b].nodes[k].promise)
  {
    RunGrows(run, b, d);
    hide Valid, IsRuleRevoked, ComparePoolerPosition;
  }

  /** A position of an older term that a promise still allows has decided past the promised rule. */
  lemma NotForbidden(z: RulePosition, rev: TermRevocation, term: nat)
    requires !IsRuleRevoked(Some(z), Some(rev)) && !IsUnset(OutgoingOf(Some(rev)))
    requires term < rev.revokedBelowTerm && Numbers(Some(z)).decision.term <= term
    requires Numbers(Some(z)).proposal.term <= term
    ensures CompareRuleNumbers(Numbers(Some(z)).decision, OutgoingOf(Some(rev))) > 0
  {
  }

  lemma WriteIsOwn(run: Run, t: nat, x: nat)
    requires Valid(run) && t < |Tenures(run)|
    requires |Tenures(run)[t].start| <= x < |Tenures(run)[t].log| && Tenures(run)[t].log[x].Write?
    ensures LastRule(Tenures(run)[t].log[..x + 1]).term == Term(Tenures(run)[t])
  {
    hide Valid, WriteQuorum, AckedBy, PositionAt, WellFormed, LastRule, DecidedNumber;
    Lengths(run);
    var log := Tenures(run)[t].log;
    var e := AppendedAt(run, t, |run.states| - 1, x);
    RunGrows(run, e, |run.states| - 1);
    WriteStep(run, e);
    TenureFacts(run, t);
    LastTermAtMost(Tenures(run)[t], Genesis(run), t == 0, log[..x + 1]);
    LastTermAtMost(Tenures(run)[t], Genesis(run), t == 0, log[..x]);
    assert log[..x + 1] == log[..x] + [log[x]];
    PrefixIsBehind(log[..x], log[..x + 1]);
    ProposalAtMostLast(log[..x]);
  }

  lemma WriteStep(run: Run, e: nat)
    requires Valid(run) && e < |run.actions| && run.actions[e].Append? && run.actions[e].entry.Write?
    requires run.actions[e].tenure < |run.states[e].tenures|
    ensures var t := run.states[e].tenures[run.actions[e].tenure]; DecidedNumber(t.log).term == Term(t)
  {
    hide WriteQuorum, AckedBy, Follows, PositionAt;
    assert Step(run, e);
  }

  function ProposedIn(wal: Wal): nat {
    if wal == [] then 0 else ProposedIn(wal[..|wal| - 1]) + if wal[|wal| - 1].Propose? then 1 else 0
  }

  lemma ProposeStep(run: Run, e: nat)
    requires Valid(run) && e < |run.actions| && run.actions[e].Append? && run.actions[e].entry.Propose?
    requires run.actions[e].tenure < |run.states[e].tenures|
    ensures var t, rule := run.states[e].tenures[run.actions[e].tenure], run.actions[e].entry.rule;
            && PositionAt(t.log).proposal.None?
            && if DecidedNumber(t.log).term < Term(t) then rule == t.opening
               else rule.number == RuleNumber(Term(t), DecidedNumber(t.log).subterm + 1)
  {
    hide WriteQuorum, AckedBy, PositionAt;
    assert Step(run, e);
  }

  /** What a tenure proposes next, after `k` proposals of its own. */
  lemma NextNumber(run: Run, t: nat, x: nat, k: nat)
    requires Valid(run) && 0 < t < |Tenures(run)|
    requires |Tenures(run)[t].start| <= x < |Tenures(run)[t].log| && Tenures(run)[t].log[x].Propose?
    requires var last, tenure := LastRule(Tenures(run)[t].log[..x]), Tenures(run)[t];
             if k == 0 then last.term < Term(tenure)
             else last == RuleNumber(Term(tenure), tenure.opening.number.subterm + k - 1)
    ensures Tenures(run)[t].log[x].rule.number ==
            RuleNumber(Term(Tenures(run)[t]), Tenures(run)[t].opening.number.subterm + k)
  {
    hide Valid, WellFormed, PositionAt, Shaped;
    Lengths(run);
    var log := Tenures(run)[t].log;
    var e := AppendedAt(run, t, |run.states| - 1, x);
    RunGrows(run, e, |run.states| - 1);
    ProposeStep(run, e);
    TenureFacts(run, t);
    LastTermAtMost(Tenures(run)[t], Genesis(run), false, log[..x]);
    Numbering(log[..x]);
  }

  /** A leadership's rules are numbered one after another from its opening, in the order it proposed them. */
  lemma {:induction false} RulesAreNumberedInOrder(run: Run, t: nat, x: nat)
    requires Valid(run) && 0 < t < |Tenures(run)| && |Tenures(run)[t].start| <= x <= |Tenures(run)[t].log|
    ensures var tenure := Tenures(run)[t];
            var k, last := ProposedIn(tenure.log[|tenure.start|..x]), LastRule(tenure.log[..x]);
            && (if k == 0 then last.term < Term(tenure)
                else last == RuleNumber(Term(tenure), tenure.opening.number.subterm + k - 1))
            && (x < |tenure.log| && tenure.log[x].Propose? ==>
                  tenure.log[x].rule.number == RuleNumber(Term(tenure), tenure.opening.number.subterm + k))
    decreases x
  {
    hide Valid, WellFormed, PositionAt, Shaped, LastRule;
    var tenure := Tenures(run)[t];
    var log, own := tenure.log, tenure.log[|tenure.start|..x];
    TenureFacts(run, t);
    if x == |tenure.start| {
      assert log[..x] == tenure.start && own == [];
    } else {
      RulesAreNumberedInOrder(run, t, x - 1);
      assert log[..x] == log[..x - 1] + [log[x - 1]] && own[..|own| - 1] == log[|tenure.start|..x - 1];
      PrefixIsBehind(log[..x], log);
      NextLast(log[..x - 1], log[x - 1]);
    }
    if x < |log| && log[x].Propose? { NextNumber(run, t, x, ProposedIn(own)); }
  }

  lemma NextLast(wal: Wal, e: Entry)
    requires WellFormed(wal + [e])
    ensures LastRule(wal + [e]) == if e.Propose? then e.rule.number else LastRule(wal)
  {
    assert (wal + [e])[..|wal|] == wal;
    AppendAdvances(wal, e);
  }

  /** `p` is durable history of tenure `t`: it reaches into the tenure's own rules, and by time `m` a quorum of
      the policy in force at its end acknowledged it. */
  ghost predicate Durable(run: Run, t: nat, p: Wal, nodes: set<string>, m: nat) {
    && t < |Tenures(run)| && p <= Tenures(run)[t].log && LastRule(p).term == Term(Tenures(run)[t])
    && WriteQuorum(p, nodes) && AckedBy(run, t, p, nodes, m)
  }

  lemma QuorumHasMember(wal: Wal, nodes: set<string>) returns (k: string)
    requires WriteQuorum(wal, nodes)
    ensures k in nodes
  {
    hide PositionAt, ExpectedPolicy;
    var p := ExpectedPolicy(Some(PositionAt(wal))).value;
    assert nodes != {} by { assert Quorum(p, nodes); }
    k :| k in nodes;
  }

  /** What was acknowledged to a tenure, the tenure had written before. */
  lemma AcknowledgedIsWritten(run: Run, t: nat, p: Wal, k: string, a: nat)
    requires Valid(run) && Acked(run, t, p, k, a)
    ensures a > 0 ==> t < |run.states[a - 1].tenures| && p <= run.states[a - 1].tenures[t].log
    ensures t < |run.states[a].tenures| && p <= run.states[a].tenures[t].log
    ensures a == 0 ==> t == 0 && p <= Genesis(run)
  {
    hide Step, Valid, TenureOk, Init;
    Lengths(run);
    EveryStateOk(run, a);
    assert NodeOk(k, run.states[a].nodes[k], run.states[a], Genesis(run));
    if a == 0 {
      InitialNode(run, k);
    } else if Acked(run, t, p, k, a - 1) {
      EveryStateOk(run, a - 1);
      assert NodeOk(k, run.states[a - 1].nodes[k], run.states[a - 1], Genesis(run));
    } else {
      AdoptingStep(run, t, p, k, a - 1);
      AdoptedLog(run, a - 1);
    }
  }

  lemma InitialNode(run: Run, k: string)
    requires Valid(run) && k in run.states[0].nodes
    ensures run.states[0].nodes[k].source == 0 && run.states[0].nodes[k].wal == Genesis(run)
  {
    hide Step;
  }

  lemma AdoptedLog(run: Run, d: nat)
    requires Valid(run) && d < |run.actions| && run.actions[d].Replicate?
    ensures var a := run.actions[d];
            && a.tenure < |run.states[d].tenures| && a.key in run.states[d + 1].nodes
            && run.states[d + 1].nodes[a.key].wal <= run.states[d].tenures[a.tenure].log
  {
    hide Delivered, IsRuleRevoked, ComparePoolerPosition;
    assert Step(run, d);
  }

  /** What makes a WAL durable: a quorum of the decision at its end and, while a proposal is outstanding on it, of that
      proposal too. */
  lemma WriteQuorumIsExact(wal: Wal, nodes: set<string>)
    requires WellFormed(wal) && DuplicateFreeAt(Some(PositionAt(wal)))
    ensures var d, p := PositionAt(wal).decision, PositionAt(wal).proposal;
            WriteQuorum(wal, nodes) <==>
            && PolicyOf(d).Ok? && Quorum(InForce(d), nodes)
            && (p.Some? ==> PolicyOf(p).Ok? && Supported(InForce(d), InForce(p)) && Quorum(InForce(p), nodes))
  {
    Numbering(wal);
    PolicyInForceIsExact(Some(PositionAt(wal)), nodes);
    hide PositionAt, ExpectedPolicy, Quorum, PolicyOf, Supported, DuplicateFreeAt;
  }

  /** A decision of a tenure's own term was acknowledged before it was written, by a quorum of the rule it replaces that
      is also a quorum of the rule it decides. */
  lemma OwnDecisionAcked(run: Run, t: nat, i: nat, x: nat) returns (nodes: set<string>, m: nat)
    requires Valid(run) && i < |run.states| && t < |run.states[i].tenures| && Anchor(run.states[i].tenures[t], x)
    requires CompareRuleNumbers(LastRule(run.states[i].tenures[t].log[..x]), LastRule(Genesis(run))) > 0
    ensures m < i && Durable(run, t, run.states[i].tenures[t].log[..x], nodes, m)
    ensures var pos := PositionAt(run.states[i].tenures[t].log[..x]);
            DuplicateFreeAt(Some(pos)) ==>
              && PolicyOf(pos.decision).Ok? && Quorum(InForce(pos.decision), nodes)
              && PolicyOf(pos.proposal).Ok? && Quorum(InForce(pos.proposal), nodes)
  {
    hide Valid, Step, WriteQuorum, AckedBy, PositionAt, WellFormed, LastRule;
    Lengths(run);
    var tenure := run.states[i].tenures[t];
    DecidedPastStart(run, i, t, x);
    m := AppendedAt(run, t, i, x);
    nodes := run.actions[m].nodes;
    AckedAppend(run, m);
    RunGrows(run, i, |run.states| - 1);
    hide Grows;
    assert tenure.log[..x] <= Tenures(run)[t].log;
    hide Durable, Quorum, PolicyOf, InForce, DuplicateFreeAt;
    if DuplicateFreeAt(Some(PositionAt(tenure.log[..x]))) {
      assert WellFormed(tenure.log) by { EveryStateOk(run, i); }
      PrefixIsBehind(tenure.log[..x], tenure.log);
      assert PositionAt(tenure.log[..x]).proposal.Some? by { DecidesSomething(tenure.log, x); }
      WriteQuorumIsExact(tenure.log[..x], nodes);
    }
  }

  lemma {:induction false} DecidesSomething(wal: Wal, x: nat)
    requires WellFormed(wal) && x < |wal| && wal[x].Decide?
    ensures PositionAt(wal[..x]).proposal.Some?
    decreases |wal|
  {
    hide PositionAt;
    var init := wal[..|wal| - 1];
    if x < |init| {
      DecidesSomething(init, x);
      assert init[..x] == wal[..x];
    }
  }

  /** A decision a tenure wrote of its own term: what settles a rule for good. */
  ghost predicate Anchor(t: Tenure, x: nat) {
    x < |t.log| && t.log[x].Decide? && LastRule(t.log[..x]).term == Term(t)
  }

  // ---------------------------------------------------------------- beginnings of runs

  /** The run up to state `i`. */
  function Upto(run: Run, i: nat): Run
    requires i < |run.states| == |run.actions| + 1
  {
    Run(run.states[..i + 1], run.actions[..i])
  }

  /** A step looks only at what came before it. */
  lemma StepLooksBack(run: Run, other: Run, j: nat)
    requires j < |run.actions| && j + 1 < |run.states| && j < |other.actions| && j + 1 < |other.states|
    requires run.states[..j + 2] == other.states[..j + 2] && run.actions[..j + 1] == other.actions[..j + 1]
    requires Step(run, j)
    ensures Step(other, j)
  {
    hide BuildSafeProposal, LeadsFrom, RoundRecruits, RoundPosition, SameRound, Accepts, IsRuleRevoked, Delivered,
      ComparePoolerPosition, Follows, WriteQuorum, PositionAt, LastRule, DecidedNumber, At;
    assert forall b :: 0 <= b < j + 2 ==> run.states[b] == run.states[..j + 2][b] == other.states[b];
    assert run.actions[j] == run.actions[..j + 1][j] == other.actions[j];
    var a := run.actions[j];
    if a.Append? {
      AcknowledgementsLookBack(run, other, j, a.tenure, run.states[j].tenures[a.tenure].log, a.nodes);
      hide AckedBy;
    }
  }

  lemma AcknowledgementsLookBack(run: Run, other: Run, j: nat, t: nat, wal: Wal, nodes: set<string>)
    requires j < |run.states| && j < |other.states| && run.states[..j + 1] == other.states[..j + 1]
    ensures AckedBy(run, t, wal, nodes, j) ==> AckedBy(other, t, wal, nodes, j)
  {
    assert forall b :: 0 <= b < j + 1 ==> run.states[b] == run.states[..j + 1][b] == other.states[b];
    if AckedBy(run, t, wal, nodes, j) {
      forall k | k in nodes ensures exists a: nat :: a <= j && Acked(other, t, wal, k, a) {
        var a: nat :| a <= j && Acked(run, t, wal, k, a);
        assert Acked(other, t, wal, k, a);
      }
    }
  }

  lemma UptoValid(run: Run, i: nat)
    requires Valid(run) && i < |run.states|
    ensures |run.states| == |run.actions| + 1 && Valid(Upto(run, i))
    ensures Tenures(Upto(run, i)) == run.states[i].tenures && Genesis(Upto(run, i)) == Genesis(run)
  {
    hide Step, Init;
    Lengths(run);
    var other := Upto(run, i);
    assert other.states[0] == run.states[0];
    forall j | 0 <= j < |other.actions| ensures Step(other, j) {
      assert other.states[..j + 2] == run.states[..j + 2] && other.actions[..j + 1] == run.actions[..j + 1];
      StepLooksBack(run, other, j);
    }
  }

  lemma AcknowledgedWhen(run: Run, t: nat, p: Wal, nodes: set<string>, m: nat, k: string) returns (a: nat)
    requires AckedBy(run, t, p, nodes, m) && k in nodes
    ensures a <= m && Acked(run, t, p, k, a)
  {
    var a': nat :| a' <= m && Acked(run, t, p, k, a');
    a := a';
  }

  // ---------------------------------------------------------------- log matching

  lemma ProposalsIncrease(wal: Wal, i: nat, j: nat)
    requires WellFormed(wal) && i < j < |wal| && wal[i].Propose? && wal[j].Propose?
    ensures CompareRuleNumbers(wal[i].rule.number, wal[j].rule.number) < 0
  {
    hide PositionAt, LastRule;
    var b := wal[..j];
    PrefixIsBehind(wal[..j + 1], wal);
    PrefixIsBehind(b, wal);
    LastIsProposal(wal, i);
    assert wal[..i + 1] <= b;
    PrefixIsBehind(wal[..i + 1], b);
    assert wal[..j + 1][..j] == b && wal[..j + 1][j] == wal[j];
    NextIsHigher(b, wal[j].rule);
  }

  lemma NextIsHigher(wal: Wal, rule: ShardRule)
    requires WellFormed(wal) && Follows(PositionAt(wal), Propose(rule))
    ensures CompareRuleNumbers(LastRule(wal), rule.number) < 0
  {
    Numbering(wal);
    hide PositionAt, WellFormed;
  }

  /** A rule was written by the tenure of its term, after the same history. */
  lemma {:induction false} ProposedBy(run: Run, v: nat, j: nat) returns (w: nat)
    requires Valid(run) && v < |Tenures(run)| && j < |Tenures(run)[v].log| && Tenures(run)[v].log[j].Propose?
    ensures w <= v && Term(Tenures(run)[w]) == Tenures(run)[v].log[j].rule.number.term
    ensures j < |Tenures(run)[w].log| && Tenures(run)[w].log[..j + 1] == Tenures(run)[v].log[..j + 1]
    decreases v
  {
    hide Step, Valid, PositionAt, WellFormed, LastRule;
    TenureFacts(run, v);
    var t := Tenures(run)[v];
    if j >= |t.start| {
      w := v;
      assert Shaped(t, t.log[..j + 1]);
      LastIsProposal(t.log, j);
      assert t.log[..j + 1][j] == t.log[j];
    } else if v == 0 {
      w := 0;
      GenesisShape(run);
      assert t.start[j] == t.log[j];
    } else {
      var s := StartSource(run, v);
      assert t.start[j] == t.log[j] && Tenures(run)[s].log[j] == t.start[j];
      w := ProposedBy(run, s, j);
      assert Tenures(run)[s].log[..j + 1] == t.start[..j + 1] == t.log[..j + 1];
    }
  }

  lemma LastIsProposal(wal: Wal, j: nat)
    requires WellFormed(wal) && j < |wal| && wal[j].Propose?
    ensures LastRule(wal[..j + 1]) == wal[j].rule.number
    ensures PositionAt(wal[..j + 1]) == PositionAt(wal[..j]).(proposal := Some(wal[j].rule))
  {
    PrefixIsBehind(wal[..j + 1], wal);
    assert wal[..j + 1] == wal[..j] + [wal[j]] && (wal[..j] + [wal[j]])[..j] == wal[..j];
    AppendAdvances(wal[..j], wal[j]);
  }

  lemma GenesisShape(run: Run)
    requires Valid(run) && |Tenures(run)| > 0
    ensures var t := Tenures(run)[0];
            t.start == [Propose(t.opening), Decide] == Genesis(run) && t.opening.number.term == Term(t)
  {
    hide Step, NoWeaker, ComparePoolerPosition;
    RunGrows(run, 0, |run.states| - 1);
  }

  /** No two tenures share a term, and the rule a tenure transitions from never goes back with the term. */
  ghost predicate Ordered(x: Tenure, y: Tenure) {
    && Term(x) != Term(y)
    && (Term(x) < Term(y) ==> CompareRuleNumbers(LastRule(x.start), LastRule(y.start)) <= 0)
    && (Term(y) < Term(x) ==> CompareRuleNumbers(LastRule(y.start), LastRule(x.start)) <= 0)
  }

  ghost predicate AllOrdered(run: Run) {
    forall x, y :: 0 <= x < y < |Tenures(run)| ==> Ordered(Tenures(run)[x], Tenures(run)[y])
  }

  /** Log matching: WALs that contain one rule number agree up to that rule. */
  lemma SameRuleSameHistory(run: Run, v: nat, j: nat, v': nat, j': nat)
    requires Valid(run) && AllOrdered(run) && v < |Tenures(run)| && v' < |Tenures(run)|
    requires j < |Tenures(run)[v].log| && Tenures(run)[v].log[j].Propose?
    requires j' < |Tenures(run)[v'].log| && Tenures(run)[v'].log[j'].Propose?
    requires Tenures(run)[v].log[j].rule.number == Tenures(run)[v'].log[j'].rule.number
    ensures j == j' && Tenures(run)[v].log[..j + 1] == Tenures(run)[v'].log[..j + 1]
  {
    hide Valid, LastRule, WellFormed, PositionAt, Shaped;
    var w := ProposedBy(run, v, j);
    var w' := ProposedBy(run, v', j');
    assert w == w';
    var log := Tenures(run)[w].log;
    assert log[j] == log[..j + 1][j] == Tenures(run)[v].log[j];
    assert log[j'] == log[..j' + 1][j'] == Tenures(run)[v'].log[j'];
    TenureFacts(run, w);
    if j < j' { ProposalsIncrease(log, j, j'); }
    if j' < j { ProposalsIncrease(log, j', j); }
  }

  // ---------------------------------------------------------------- from a proposal to its decision

  /** After a proposal a WAL stays at it until it is decided. */
  lemma {:induction false} AfterProposal(a: Wal, wal: Wal) returns (j: nat)
    requires WellFormed(wal) && a <= wal && PositionAt(a).proposal.Some?
    ensures CompareRuleNumbers(DecidedNumber(wal), LastRule(a)) < 0 ==> PositionAt(wal) == PositionAt(a)
    ensures CompareRuleNumbers(DecidedNumber(wal), LastRule(a)) >= 0 ==>
              && |a| < j <= |wal| && DecidedNumber(wal[..j]) == LastRule(a)
              && PositionAt(wal[..j]).decision == PositionAt(a).proposal
              && wal[j - 1] == Decide && PositionAt(wal[..j - 1]) == PositionAt(a)
    ensures CompareRuleNumbers(DecidedNumber(wal), LastRule(a)) == 0 ==>
              PositionAt(wal).decision == PositionAt(a).proposal
    decreases |wal|
  {
    hide WellFormed, PositionAt;
    j := 0;
    PrefixIsBehind(a, wal);
    Numbering(a);
    if |a| == |wal| {
      assert a == wal;
    } else {
      var init, e := LastEntryFollows(wal);
      assert a <= init;
      j := AfterProposal(a, init);
      AppendAdvances(init, e);
      Numbering(init);
      Numbering(wal);
      if CompareRuleNumbers(DecidedNumber(init), LastRule(a)) < 0 {
        j := |wal|;
        assert wal[..j] == wal && wal[..j - 1] == init;
      } else {
        assert wal[..j] == init[..j] && wal[..j - 1] == init[..j - 1];
      }
    }
  }
}
