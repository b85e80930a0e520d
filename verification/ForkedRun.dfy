/** Frozen changes are not enough on their own. For any tightening change that could not safely be taken back, there
    is a run in which every decided change is frozen along with its decision, and yet two durable histories fork: a
    round rests on the smaller cohort, or larger count, that only a successor finished deciding. */
module ForkedRun {
  import opened Types
  import opened Collections
  import opened Policy
  import opened Durability
  import opened Proposals
  import opened Protocol
  import opened ProtocolInvariants
  import opened ProtocolHistory
  import opened ProtocolSafety
  import opened RunBuilding
  import opened GroupedRuns
  import opened RuleFamilies
  import opened RuleChanges

  // ---------------------------------------------------------------- who takes part

  /** `big` tightens to `small` in a cluster of nodes. `few` can recruit and write under `small`, `far` can write under
      `big` without them; `first` and `rival` lead the two sides, as members of `few` and `far` or from outside. */
  datatype Fork = Fork(cluster: seq<ID>, big: PolicyWithCohort, small: PolicyWithCohort, few: set<string>,
                       far: set<string>, first: string, rival: string)

  ghost predicate Forks(f: Fork) {
    && Loosening(f.small, f.big) && Keys(f.big.cohort) <= Keys(f.cluster)
    && Frozen(f.small, f.few) && Quorum(f.small, f.few) && Quorum(f.big, f.far) && f.few !! f.far
    && f.first in Keys(f.cluster) - f.far && f.rival in Keys(f.cluster) - f.few && f.first != f.rival
    && Frozen(f.big, Keys(f.cluster) - {f.first}) && Frozen(f.big, Keys(f.cluster) - {f.rival})
  }

  function Sides(f: Fork): Groups { Groups(f.cluster, {f.first}, f.few - {f.first}, {f.rival}, f.far - {f.rival}) }

  const JustFirst := Choice(true, false, false, false, false)
  const JustRival := Choice(false, false, true, false, false)
  const Few := Choice(true, true, false, false, false)
  const Far := Choice(false, false, true, true, false)
  const AllButRival := Choice(true, true, false, true, true)
  const AllButFirst := Choice(false, true, true, true, true)

  /** Who acknowledges for a side: its leader only if it belongs to the quorum. */
  function FewAck(f: Fork): Choice { Choice(f.first in f.few, true, false, false, false) }

  function FarAck(f: Fork): Choice { Choice(false, false, f.rival in f.far, true, false) }

  lemma SidesPick(f: Fork)
    requires Forks(f)
    ensures var g := Sides(f);
            && Pick(g, Few) == f.few + {f.first} && Pick(g, FewAck(f)) == f.few && Pick(g, FarAck(f)) == f.far
            && Pick(g, AllButRival) == Keys(f.cluster) - {f.rival}
            && Pick(g, AllButFirst) == Keys(f.cluster) - {f.first}
    ensures f.few <= Keys(f.big.cohort) && f.far <= Keys(f.big.cohort)
  {
    hide Keys, Loosening, Frozen;
    LooseningWidens(f.small, f.big);
  }

  lemma LeadersTakePart(f: Fork)
    requires Forks(f)
    ensures var g := Sides(f);
            f.first in Pick(g, Few) && f.first in Pick(g, AllButRival) && f.rival in Pick(g, AllButFirst)
    ensures forall cs :: CellOfNode(Sides(f), cs, f.first) == cs.a && CellOfNode(Sides(f), cs, f.rival) == cs.c
  {
    hide Keys, Loosening, Frozen, Quorum;
  }

  /** A tightening change is the reverse of a loosening one. */
  lemma TransitionReverses(small: PolicyWithCohort, big: PolicyWithCohort)
    requires Loosening(small, big)
    ensures BuildPolicyTransition(big, small).Ok? && BuildPolicyTransition(big, small).value.both == small
  {
    SubsetMeaning(small.cohort, big.cohort);
    SubsetMeaning(big.cohort, small.cohort);
    if SameCohort(small.cohort, big.cohort) {
      SameCohortOnDistinct(small.cohort, big.cohort);
      SameKeysSameCohort(big.cohort, small.cohort);
    }
    if SameCohort(big.cohort, small.cohort) {
      SameCohortOnDistinct(big.cohort, small.cohort);
      SameKeysSameCohort(small.cohort, big.cohort);
    }
    hide Keys, SameCohort, CohortIsSubsetOf;
  }

  lemma SameKeysSameCohort(a: seq<ID>, b: seq<ID>)
    requires Keys(a) == Keys(b) && |a| == |b|
    ensures SameCohort(a, b)
  {
    forall id | id in b ensures MemberOf(a, id) { assert ClusterKey(id) in Keys(b); }
  }

  /** A policy no single node satisfies needs two nodes. */
  lemma TwoInQuorum(p: PolicyWithCohort, nodes: set<string>)
    requires NeedsTwo(p.policy) && Quorum(p, nodes)
    ensures |nodes| >= 2
  {
    if p.policy.MultiCell? {
      var a, b :| a in nodes && b in nodes && CellOf(a) != CellOf(b);
      SubsetCount({a, b}, nodes);
    }
  }

  /** Recruiting all but one node of three or more freezes a cohort. */
  lemma LeavingOneOut(p: PolicyWithCohort, x: string)
    requires NeedsTwo(p.policy) && x in Keys(p.cohort) && |Keys(p.cohort)| >= 3
    ensures Frozen(p, Keys(p.cohort) - {x})
  {
    hide Keys;
    var all := Keys(p.cohort);
    assert (all - {x}) * all == all - {x} && all - (all - {x}) == {x};
  }

  lemma FrozenMonotone(p: PolicyWithCohort, r: set<string>, more: set<string>)
    requires Frozen(p, r) && r <= more
    ensures Frozen(p, more)
  {
    hide Keys, Satisfies;
    var all := Keys(p.cohort);
    SubsetCount(r * all, more * all);
    if Satisfies(p.policy, all - more * all) { SatisfiesMonotone(p.policy, all - more * all, all - r * all); }
  }

  lemma FinishesIn(decision: PolicyWithCohort, proposal: PolicyWithCohort, quorum: set<string>, recruits: set<string>)
    requires BuildPolicyTransition(decision, proposal).Ok?
    requires BuildPolicyTransition(decision, proposal).value.both == proposal
    requires Quorum(proposal, quorum) && quorum <= recruits
    ensures CanFinish(decision, proposal, recruits) && Satisfies(proposal.policy, recruits * Keys(proposal.cohort))
  {
    hide BuildPolicyTransition, Keys;
    SatisfiesMonotone(proposal.policy, quorum, recruits * Keys(proposal.cohort));
  }

  /** The rounds below pass, and the policies in force are satisfied. */
  lemma SidesPass(f: Fork)
    requires Forks(f)
    ensures var low, most, pair := Keys(f.cluster) - {f.rival}, Keys(f.cluster) - {f.first}, f.few + {f.first};
            && Frozen(f.big, low) && Frozen(f.big, most) && Frozen(f.small, pair)
            && CanFinish(f.big, f.small, low) && CanFinish(f.big, f.big, most) && CanFinish(f.small, f.small, pair)
            && Satisfies(f.small.policy, low * Keys(f.small.cohort))
            && Satisfies(f.big.policy, most * Keys(f.big.cohort))
            && Satisfies(f.small.policy, pair * Keys(f.small.cohort))
    ensures Transits(f.big, f.small) && Transits(f.big, f.big) && Transits(f.small, f.small)
  {
    hide Keys, Frozen, Quorum, BuildPolicyTransition, Satisfies, CanFinish, DuplicateFree;
    SidesPick(f);
    FrozenMonotone(f.small, f.few, f.few + {f.first});
    TransitionReverses(f.small, f.big);
    SameIsLoosening(f.big);
    SameIsLoosening(f.small);
    FinishesIn(f.big, f.small, f.few, Keys(f.cluster) - {f.rival});
    FinishesIn(f.big, f.big, f.far, Keys(f.cluster) - {f.first});
    FinishesIn(f.small, f.small, f.few, f.few + {f.first});
  }

  ghost predicate Transits(decision: PolicyWithCohort, proposal: PolicyWithCohort) {
    BuildPolicyTransition(decision, proposal).Ok? && BuildPolicyTransition(decision, proposal).value.both == proposal
  }

  // ---------------------------------------------------------------- the two histories

  function Big(f: Fork, term: nat): ShardRule { RuleFor(f.big, RuleNumber(term, 0)) }

  function Small(f: Fork, term: nat): ShardRule { RuleFor(f.small, RuleNumber(term, 0)) }

  function Shrink(f: Fork): ShardRule { RuleFor(f.small, RuleNumber(1, 1)) }

  function Begun(f: Fork): Wal { [Propose(Big(f, 1)), Decide] }

  /** One side proposes the tighter rule, decides it, and builds on it. */
  function ShrinkProposed(f: Fork): Wal { Begun(f) + [Propose(Shrink(f))] }

  function ShrinkDecided(f: Fork): Wal { ShrinkProposed(f) + [Decide] }

  function NextProposed(f: Fork): Wal { ShrinkDecided(f) + [Propose(Small(f, 4))] }

  function NextDecided(f: Fork): Wal { NextProposed(f) + [Decide] }

  function SmallHistory(f: Fork): Wal { NextDecided(f) + [Propose(Small(f, 6))] }

  /** The other never sees it. */
  function RivalProposed(f: Fork): Wal { Begun(f) + [Propose(Big(f, 2))] }

  function RivalDecided(f: Fork): Wal { RivalProposed(f) + [Decide] }

  function BigHistory(f: Fork): Wal { RivalDecided(f) + [Propose(Big(f, 5))] }

  lemma HistoryPositions(f: Fork)
    ensures PositionAt(Begun(f)) == RulePosition(Some(Big(f, 1)), None)
    ensures PositionAt(ShrinkProposed(f)) == RulePosition(Some(Big(f, 1)), Some(Shrink(f)))
    ensures PositionAt(ShrinkDecided(f)) == RulePosition(Some(Shrink(f)), None)
    ensures PositionAt(NextProposed(f)) == RulePosition(Some(Shrink(f)), Some(Small(f, 4)))
    ensures PositionAt(NextDecided(f)) == RulePosition(Some(Small(f, 4)), None)
    ensures PositionAt(SmallHistory(f)) == RulePosition(Some(Small(f, 4)), Some(Small(f, 6)))
    ensures PositionAt(RivalProposed(f)) == RulePosition(Some(Big(f, 1)), Some(Big(f, 2)))
    ensures PositionAt(RivalDecided(f)) == RulePosition(Some(Big(f, 2)), None)
    ensures PositionAt(BigHistory(f)) == RulePosition(Some(Big(f, 2)), Some(Big(f, 5)))
  {
    hide Big, Small, Shrink;
    var one := [Propose(Big(f, 1))];
    assert PositionAt(one) == RulePosition(None, Some(Big(f, 1))) by { assert one[..0] == []; }
    assert Begun(f)[..1] == one && ShrinkProposed(f)[..2] == Begun(f) && ShrinkDecided(f)[..3] == ShrinkProposed(f);
    assert NextProposed(f)[..4] == ShrinkDecided(f) && NextDecided(f)[..5] == NextProposed(f);
    assert SmallHistory(f)[..6] == NextDecided(f) && RivalProposed(f)[..2] == Begun(f);
    assert RivalDecided(f)[..3] == RivalProposed(f) && BigHistory(f)[..4] == RivalDecided(f);
  }

  lemma RulesAre(f: Fork, term: nat)
    ensures Big(f, term).number == Small(f, term).number == RuleNumber(term, 0) && Shrink(f).number == RuleNumber(1, 1)
    ensures PolicyOf(Some(Big(f, term))).Ok? && InForce(Some(Big(f, term))) == f.big
    ensures PolicyOf(Some(Small(f, term))).Ok? && InForce(Some(Small(f, term))) == f.small
    ensures PolicyOf(Some(Shrink(f))).Ok? && InForce(Some(Shrink(f))) == f.small
  {
    RuleForMeans(f.big, RuleNumber(term, 0));
    RuleForMeans(f.small, RuleNumber(term, 0));
    RuleForMeans(f.small, RuleNumber(1, 1));
  }

  lemma AllRules(f: Fork)
    ensures forall term :: 1 <= term <= 6 ==>
              && Big(f, term).number == Small(f, term).number == RuleNumber(term, 0)
              && PolicyOf(Some(Big(f, term))).Ok? && InForce(Some(Big(f, term))) == f.big
              && PolicyOf(Some(Small(f, term))).Ok? && InForce(Some(Small(f, term))) == f.small
    ensures Shrink(f).number == RuleNumber(1, 1) && PolicyOf(Some(Shrink(f))).Ok? && InForce(Some(Shrink(f))) == f.small
  {
    hide Big, Small, Shrink, PolicyOf, InForce;
    forall term | 1 <= term <= 6
      ensures && Big(f, term).number == Small(f, term).number == RuleNumber(term, 0)
              && PolicyOf(Some(Big(f, term))).Ok? && InForce(Some(Big(f, term))) == f.big
              && PolicyOf(Some(Small(f, term))).Ok? && InForce(Some(Small(f, term))) == f.small
    {
      RulesAre(f, term);
    }
    RulesAre(f, 1);
  }

  /** What the rounds establish about the positions they find, and which acknowledgements decide. */
  lemma HistoriesPass(f: Fork)
    requires Forks(f)
    ensures var low, most, pair := Keys(f.cluster) - {f.rival}, Keys(f.cluster) - {f.first}, f.few + {f.first};
            && Froze(PositionAt(Begun(f)), most) && Froze(PositionAt(ShrinkProposed(f)), low)
            && Froze(PositionAt(ShrinkDecided(f)), pair) && Froze(PositionAt(RivalProposed(f)), most)
            && Froze(PositionAt(NextProposed(f)), pair)
    ensures WriteQuorum(ShrinkProposed(f), f.few) && WriteQuorum(RivalProposed(f), f.far)
    ensures WriteQuorum(NextProposed(f), f.few) && WriteQuorum(BigHistory(f), f.far)
    ensures WriteQuorum(SmallHistory(f), f.few)
  {
    hide PositionAt, Big, Small, Shrink, Frozen, CanFinish, Quorum, PolicyOf, InForce, Satisfies, Keys,
      BuildPolicyTransition, Loosening;
    HistoryPositions(f);
    SidesPass(f);
    AllRules(f);
  }

  lemma HistoriesPropose(f: Fork)
    requires Forks(f)
    ensures var low, most, pair := Keys(f.cluster) - {f.rival}, Keys(f.cluster) - {f.first}, f.few + {f.first};
            && MayPropose(Big(f, 2), RoundOf(2, RuleNumber(1, 0)), Begun(f), most)
            && MayPropose(Small(f, 3), RoundOf(3, RuleNumber(1, 1)), ShrinkProposed(f), low)
            && MayPropose(Small(f, 4), RoundOf(4, RuleNumber(1, 1)), ShrinkDecided(f), pair)
            && MayPropose(Big(f, 5), RoundOf(5, RuleNumber(2, 0)), RivalProposed(f), most)
            && MayPropose(Small(f, 6), RoundOf(6, RuleNumber(4, 0)), NextProposed(f), pair)
  {
    hide PositionAt, RuleFor, Frozen, CanFinish, Quorum, Satisfies, Keys, BuildPolicyTransition, Loosening,
      MayPropose;
    HistoryPositions(f);
    SidesPass(f);
    var low, most, pair := Keys(f.cluster) - {f.rival}, Keys(f.cluster) - {f.first}, f.few + {f.first};
    MayProposeSame(f.big, 2, RuleNumber(1, 0), Begun(f), most, RuleNumber(0, 0));
    MayProposeSame(f.small, 3, RuleNumber(1, 1), ShrinkProposed(f), low, RuleNumber(1, 1));
    MayProposeSame(f.small, 4, RuleNumber(1, 1), ShrinkDecided(f), pair, RuleNumber(0, 0));
    MayProposeSame(f.big, 5, RuleNumber(2, 0), RivalProposed(f), most, RuleNumber(2, 0));
    MayProposeSame(f.small, 6, RuleNumber(4, 0), NextProposed(f), pair, RuleNumber(4, 0));
  }

  lemma HistorySteps(f: Fork)
    ensures Begun(f) + [Propose(Shrink(f))] == ShrinkProposed(f) && ShrinkProposed(f) + [Decide] == ShrinkDecided(f)
    ensures ShrinkDecided(f) + [Propose(Small(f, 4))] == NextProposed(f) && NextProposed(f) + [Decide] == NextDecided(f)
    ensures NextDecided(f) + [Propose(Small(f, 6))] == SmallHistory(f)
    ensures Begun(f) + [Propose(Big(f, 2))] == RivalProposed(f) && RivalProposed(f) + [Decide] == RivalDecided(f)
    ensures RivalDecided(f) + [Propose(Big(f, 5))] == BigHistory(f)
  {
  }

  // ---------------------------------------------------------------- the six leaderships

  function Original(f: Fork, log: Wal): Tenure { Tenure(FirstRound, Big(f, 1), Begun(f), log) }

  function Rival(f: Fork, log: Wal): Tenure { Tenure(RoundOf(2, RuleNumber(1, 0)), Big(f, 2), Begun(f), log) }

  function Finisher(f: Fork, log: Wal): Tenure {
    Tenure(RoundOf(3, RuleNumber(1, 1)), Small(f, 3), ShrinkProposed(f), log)
  }

  function Next(f: Fork, log: Wal): Tenure { Tenure(RoundOf(4, RuleNumber(1, 1)), Small(f, 4), ShrinkDecided(f), log) }

  function RivalHeir(f: Fork, log: Wal): Tenure {
    Tenure(RoundOf(5, RuleNumber(2, 0)), Big(f, 5), RivalProposed(f), log)
  }

  function NextHeir(f: Fork, log: Wal): Tenure {
    Tenure(RoundOf(6, RuleNumber(4, 0)), Small(f, 6), NextProposed(f), log)
  }

  /** What they tell their followers. */
  lemma LeadersTell(f: Fork)
    ensures Delivered(Original(f, ShrinkProposed(f)), true, PositionAt(Begun(f)))
    ensures forall log :: Delivered(Rival(f, log), false, PositionAt(RivalProposed(f)))
    ensures forall log :: Delivered(Finisher(f, log), false, RulePosition(Some(Shrink(f)), Some(Small(f, 3))))
    ensures forall log :: Delivered(Next(f, log), false, PositionAt(NextProposed(f)))
    ensures forall log :: Delivered(RivalHeir(f, log), false, PositionAt(BigHistory(f)))
    ensures forall log :: Delivered(NextHeir(f, log), false, PositionAt(SmallHistory(f)))
  {
    hide PositionAt, Big, Small, Shrink;
    HistoryPositions(f);
    AllRules(f);
    assert ShrinkProposed(f)[..2] == Begun(f);
  }

  /** The first leader proposes the tighter rule; a rival that does not see it opens its own term. */
  lemma ShrinkIsProposed(f: Fork) returns (run: Run)
    requires Forks(f)
    ensures var p2 := Some(RoundOf(2, RuleNumber(1, 0)));
            var c := Cell(p2, Begun(f), 0);
            Runs(run, State(Grouped(Sides(f), Cells(Cell(None, ShrinkProposed(f), 0), c,
                                                    Cell(p2, RivalProposed(f), 1), c, c)),
                            [Original(f, ShrinkProposed(f)), Rival(f, RivalProposed(f))]))
  {
    hide Valid, PositionAt, Froze, WriteQuorum, MayPropose, Big, Small, Shrink, Pick, Grouped, Keys, Begun,
      ShrinkProposed, Forks, Sides, CellOfNode, RivalProposed;
    HistoryPositions(f);
    AllRules(f);
    HistoriesPass(f);
    HistoriesPropose(f);
    SidesPick(f);
    LeadersTakePart(f);
    HistorySteps(f);
    LeadersTell(f);
    hide Delivered;
    var g, c0 := Sides(f), Cell(None, Begun(f), 0);
    BegunIs(f);
    run := GroupsBegin(g, Big(f, 1), Begun(f));
    run := GroupsWrite(run, g, Cells(c0, c0, c0, c0, c0), [Original(f, Begun(f))], 0, Propose(Shrink(f)));
    assert [Original(f, Begun(f))][0 := Original(f, ShrinkProposed(f))] == [Original(f, ShrinkProposed(f))];
    var ts := [Original(f, ShrinkProposed(f))];
    run := GroupsFollow(run, g, Cells(c0, c0, c0, c0, c0), ts, JustFirst, 0, PositionAt(Begun(f)));
    var a := Cell(None, ShrinkProposed(f), 0);
    run := GroupsRecruit(run, g, Cells(a, c0, c0, c0, c0), ts, AllButFirst, 2, RuleNumber(1, 0));
    var c := Cell(Some(RoundOf(2, RuleNumber(1, 0))), Begun(f), 0);
    var cs := Cells(a, c, c, c, c);
    run := GroupsPromote(run, g, cs, ts, AllButFirst, 2, RuleNumber(1, 0), f.rival, Begun(f), Big(f, 2));
    ts := ts + [Rival(f, Begun(f))];
    run := GroupsWrite(run, g, cs, ts, 1, Propose(Big(f, 2)));
    ts := ts[1 := Rival(f, RivalProposed(f))];
    run := GroupsFollow(run, g, cs, ts, JustRival, 1, PositionAt(RivalProposed(f)));
  }

  lemma BegunIs(f: Fork)
    ensures Begun(f) == [Propose(RuleFor(f.big, RuleNumber(1, 0))), Decide]
    ensures Big(f, 1) == RuleFor(f.big, RuleNumber(1, 0))
  {
  }

  /** A third leader finds the tighter rule undecided and decides it, but only `first` learns of the decision. */
  lemma ShrinkIsDecided(f: Fork) returns (run: Run)
    requires Forks(f)
    ensures var p2, p3 := Some(RoundOf(2, RuleNumber(1, 0))), Some(RoundOf(3, RuleNumber(1, 1)));
            var c := Cell(p3, Begun(f), 0);
            Runs(run, State(Grouped(Sides(f), Cells(Cell(p3, ShrinkDecided(f), 2), Cell(p3, ShrinkProposed(f), 2),
                                                    Cell(p2, RivalProposed(f), 1), c, c)),
                            [Original(f, ShrinkProposed(f)), Rival(f, RivalProposed(f)),
                             Finisher(f, ShrinkDecided(f))]))
  {
    hide Valid, PositionAt, Froze, WriteQuorum, MayPropose, Big, Small, Shrink, Pick, Grouped, Keys, Begun,
      ShrinkProposed, Forks, Sides, CellOfNode, ShrinkDecided, RivalProposed;
    HistoryPositions(f);
    AllRules(f);
    HistoriesPass(f);
    HistoriesPropose(f);
    SidesPick(f);
    LeadersTakePart(f);
    HistorySteps(f);
    LeadersTell(f);
    run := ShrinkIsProposed(f);
    hide Delivered;
    var g, r2, r3 := Sides(f), RoundOf(2, RuleNumber(1, 0)), RoundOf(3, RuleNumber(1, 1));
    var z := RulePosition(Some(Shrink(f)), Some(Small(f, 3)));
    var ts := [Original(f, ShrinkProposed(f)), Rival(f, RivalProposed(f))];
    var c2, c, d := Cell(Some(r2), Begun(f), 0), Cell(Some(r3), Begun(f), 0), Cell(Some(r2), RivalProposed(f), 1);
    run := GroupsRecruit(run, g, Cells(Cell(None, ShrinkProposed(f), 0), c2, d, c2, c2), ts, AllButRival, 3,
                         RuleNumber(1, 1));
    var cs := Cells(Cell(Some(r3), ShrinkProposed(f), 0), c, d, c, c);
    run := GroupsPromote(run, g, cs, ts, AllButRival, 3, RuleNumber(1, 1), f.first, ShrinkProposed(f), Small(f, 3));
    ts := ts + [Finisher(f, ShrinkProposed(f))];
    run := GroupsFollow(run, g, cs, ts, Few, 2, z);
    var x := Cell(Some(r3), ShrinkProposed(f), 2);
    run := GroupsDecide(run, g, Cells(x, x, d, c, c), ts, 2, FewAck(f));
    ts := ts[2 := Finisher(f, ShrinkDecided(f))];
    run := GroupsFollow(run, g, Cells(x, x, d, c, c), ts, JustFirst, 2, z);
  }

  /** A fourth leader rests on that decision and opens its term. */
  lemma NextIsProposed(f: Fork) returns (run: Run)
    requires Forks(f)
    ensures var p2, p3 := Some(RoundOf(2, RuleNumber(1, 0))), Some(RoundOf(3, RuleNumber(1, 1)));
            var p4 := Some(RoundOf(4, RuleNumber(1, 1)));
            var c := Cell(p3, Begun(f), 0);
            Runs(run, State(Grouped(Sides(f), Cells(Cell(p4, NextProposed(f), 3), Cell(p4, ShrinkProposed(f), 2),
                                                    Cell(p2, RivalProposed(f), 1), c, c)),
                            [Original(f, ShrinkProposed(f)), Rival(f, RivalProposed(f)), Finisher(f, ShrinkDecided(f)),
                             Next(f, NextProposed(f))]))
  {
    hide Valid, PositionAt, Froze, WriteQuorum, MayPropose, Big, Small, Shrink, Pick, Grouped, Keys, Begun,
      ShrinkProposed, Forks, Sides, CellOfNode, ShrinkDecided, NextProposed, RivalProposed;
    HistoryPositions(f);
    AllRules(f);
    HistoriesPass(f);
    HistoriesPropose(f);
    SidesPick(f);
    LeadersTakePart(f);
    HistorySteps(f);
    LeadersTell(f);
    run := ShrinkIsDecided(f);
    hide Delivered;
    var g, r2, r3 := Sides(f), RoundOf(2, RuleNumber(1, 0)), RoundOf(3, RuleNumber(1, 1));
    var r4 := RoundOf(4, RuleNumber(1, 1));
    var ts := [Original(f, ShrinkProposed(f)), Rival(f, RivalProposed(f)), Finisher(f, ShrinkDecided(f))];
    var c, d := Cell(Some(r3), Begun(f), 0), Cell(Some(r2), RivalProposed(f), 1);
    run := GroupsRecruit(run, g,
                         Cells(Cell(Some(r3), ShrinkDecided(f), 2), Cell(Some(r3), ShrinkProposed(f), 2), d, c, c),
                         ts, Few, 4, RuleNumber(1, 1));
    var cs := Cells(Cell(Some(r4), ShrinkDecided(f), 2), Cell(Some(r4), ShrinkProposed(f), 2), d, c, c);
    run := GroupsPromote(run, g, cs, ts, Few, 4, RuleNumber(1, 1), f.first, ShrinkDecided(f), Small(f, 4));
    ts := ts + [Next(f, ShrinkDecided(f))];
    run := GroupsWrite(run, g, cs, ts, 3, Propose(Small(f, 4)));
    ts := ts[3 := Next(f, NextProposed(f))];
    run := GroupsFollow(run, g, cs, ts, JustFirst, 3, PositionAt(NextProposed(f)));
  }

  /** A fifth leader, which sees neither, finishes the rival's rule; `far` makes its opening durable. */
  lemma RivalIsDurable(f: Fork) returns (run: Run)
    requires Forks(f)
    ensures var p4, p5 := Some(RoundOf(4, RuleNumber(1, 1))), Some(RoundOf(5, RuleNumber(2, 0)));
            var u := Cell(p5, BigHistory(f), 4);
            Runs(run, State(Grouped(Sides(f), Cells(Cell(p4, NextProposed(f), 3), Cell(p5, ShrinkProposed(f), 2), u, u,
                                                    Cell(p5, Begun(f), 0))),
                            [Original(f, ShrinkProposed(f)), Rival(f, RivalProposed(f)), Finisher(f, ShrinkDecided(f)),
                             Next(f, NextProposed(f)), RivalHeir(f, BigHistory(f))]))
  {
    hide Valid, PositionAt, Froze, WriteQuorum, MayPropose, Big, Small, Shrink, Pick, Grouped, Keys, Begun,
      ShrinkProposed, Forks, Sides, CellOfNode, ShrinkDecided, NextProposed, RivalProposed, RivalDecided,
      BigHistory;
    HistoryPositions(f);
    AllRules(f);
    HistoriesPass(f);
    HistoriesPropose(f);
    SidesPick(f);
    LeadersTakePart(f);
    HistorySteps(f);
    LeadersTell(f);
    run := NextIsProposed(f);
    hide Delivered;
    var g, r2, r3 := Sides(f), RoundOf(2, RuleNumber(1, 0)), RoundOf(3, RuleNumber(1, 1));
    var r4, r5 := RoundOf(4, RuleNumber(1, 1)), RoundOf(5, RuleNumber(2, 0));
    var ts := [Original(f, ShrinkProposed(f)), Rival(f, RivalProposed(f)), Finisher(f, ShrinkDecided(f)),
               Next(f, NextProposed(f))];
    var a, b := Cell(Some(r4), NextProposed(f), 3), Cell(Some(r5), ShrinkProposed(f), 2);
    var c3 := Cell(Some(r3), Begun(f), 0);
    run := GroupsRecruit(run, g,
                         Cells(a, Cell(Some(r4), ShrinkProposed(f), 2), Cell(Some(r2), RivalProposed(f), 1), c3, c3),
                         ts, AllButFirst, 5, RuleNumber(2, 0));
    var c := Cell(Some(r5), Begun(f), 0);
    var cs := Cells(a, b, Cell(Some(r5), RivalProposed(f), 1), c, c);
    run := GroupsPromote(run, g, cs, ts, AllButFirst, 5, RuleNumber(2, 0), f.rival, RivalProposed(f), Big(f, 5));
    ts := ts + [RivalHeir(f, RivalProposed(f))];
    run := GroupsFollow(run, g, cs, ts, Far, 4, PositionAt(BigHistory(f)));
    var y := Cell(Some(r5), RivalProposed(f), 4);
    run := GroupsDecide(run, g, Cells(a, b, y, y, c), ts, 4, FarAck(f));
    ts := ts[4 := RivalHeir(f, RivalDecided(f))];
    run := GroupsWrite(run, g, Cells(a, b, y, y, c), ts, 4, Propose(Big(f, 5)));
    ts := ts[4 := RivalHeir(f, BigHistory(f))];
    run := GroupsFollow(run, g, Cells(a, b, y, y, c), ts, Far, 4, PositionAt(BigHistory(f)));
  }

  function Six(f: Fork): seq<Tenure> {
    [Original(f, ShrinkProposed(f)), Rival(f, RivalProposed(f)), Finisher(f, ShrinkDecided(f)),
     Next(f, NextProposed(f)), RivalHeir(f, BigHistory(f)), NextHeir(f, SmallHistory(f))]
  }

  /** A sixth leader rests on the tighter rule again, and `few` makes its opening durable. */
  lemma BothAreDurable(f: Fork) returns (run: Run, s: State)
    requires Forks(f)
    ensures Runs(run, s) && s.tenures == Six(f)
    ensures HoldNow(s, 4, BigHistory(f), f.far) && HoldNow(s, 5, SmallHistory(f), f.few)
  {
    hide Valid, PositionAt, Froze, WriteQuorum, MayPropose, Big, Small, Shrink, Pick, Grouped, Keys, Begun,
      ShrinkProposed, Forks, Sides, CellOfNode, ShrinkDecided, NextProposed, NextDecided, SmallHistory,
      RivalProposed, RivalDecided, BigHistory;
    HistoryPositions(f);
    AllRules(f);
    HistoriesPass(f);
    HistoriesPropose(f);
    SidesPick(f);
    LeadersTakePart(f);
    HistorySteps(f);
    LeadersTell(f);
    run := RivalIsDurable(f);
    hide Delivered;
    var g, r4 := Sides(f), RoundOf(4, RuleNumber(1, 1));
    var r5, r6 := RoundOf(5, RuleNumber(2, 0)), RoundOf(6, RuleNumber(4, 0));
    var ts := [Original(f, ShrinkProposed(f)), Rival(f, RivalProposed(f)), Finisher(f, ShrinkDecided(f)),
               Next(f, NextProposed(f)), RivalHeir(f, BigHistory(f))];
    var u, c := Cell(Some(r5), BigHistory(f), 4), Cell(Some(r5), Begun(f), 0);
    run := GroupsRecruit(run, g,
                         Cells(Cell(Some(r4), NextProposed(f), 3), Cell(Some(r5), ShrinkProposed(f), 2), u, u, c),
                         ts, Few, 6, RuleNumber(4, 0));
    var cs := Cells(Cell(Some(r6), NextProposed(f), 3), Cell(Some(r6), ShrinkProposed(f), 2), u, u, c);
    run := GroupsPromote(run, g, cs, ts, Few, 6, RuleNumber(4, 0), f.first, NextProposed(f), Small(f, 6));
    ts := ts + [NextHeir(f, NextProposed(f))];
    run := GroupsFollow(run, g, cs, ts, Few, 5, PositionAt(SmallHistory(f)));
    var e := Cell(Some(r6), NextProposed(f), 5);
    run := GroupsDecide(run, g, Cells(e, e, u, u, c), ts, 5, FewAck(f));
    ts := ts[5 := NextHeir(f, NextDecided(f))];
    run := GroupsWrite(run, g, Cells(e, e, u, u, c), ts, 5, Propose(Small(f, 6)));
    assert ts[5 := NextHeir(f, SmallHistory(f))] == Six(f);
    run := GroupsFollow(run, g, Cells(e, e, u, u, c), Six(f), Few, 5, PositionAt(SmallHistory(f)));
    var w := Cell(Some(r6), SmallHistory(f), 5);
    s := State(Grouped(g, Cells(w, w, u, u, c)), Six(f));
    GroupsHold(g, Cells(w, w, u, u, c), Six(f), FarAck(f), 4, BigHistory(f));
    GroupsHold(g, Cells(w, w, u, u, c), Six(f), FewAck(f), 5, SmallHistory(f));
  }

  // ---------------------------------------------------------------- every decided change is frozen

  lemma SoundAppend(w: Wal, e: Entry)
    requires SoundLog(w) && (e.Propose? ==> |Keys(e.rule.cohort)| == |e.rule.cohort|)
    requires e.Decide? ==> FreezesAt(PositionAt(w))
    ensures SoundLog(w + [e])
  {
    hide PositionAt, FreezesAt, Keys;
    forall x | 0 <= x < |w + [e]| && (w + [e])[x].Decide? ensures FreezesAt(PositionAt((w + [e])[..x])) {
      if x < |w| { assert (w + [e])[..x] == w[..x]; } else { assert (w + [e])[..x] == w; }
    }
  }

  lemma DecidesFreeze(f: Fork)
    requires Forks(f)
    ensures FreezesAt(PositionAt([Propose(Big(f, 1))])) && FreezesAt(PositionAt(ShrinkProposed(f)))
    ensures FreezesAt(PositionAt(NextProposed(f))) && FreezesAt(PositionAt(RivalProposed(f)))
  {
    assert PositionAt([Propose(Big(f, 1))]).decision.None? by { assert [Propose(Big(f, 1))][..0] == []; }
    assert PolicyOf(None).Err?;
    hide PositionAt, Big, Small, Shrink, FreezesProposalToo, PolicyOf, InForce, Loosening, Frozen, Quorum;
    HistoryPositions(f);
    AllRules(f);
    ReverseFreezes(f.small, f.big);
    SameFreezes(f.big);
    SameFreezes(f.small);
  }

  lemma CohortsAreDistinct(f: Fork, term: nat)
    requires Forks(f)
    ensures |Keys(Big(f, term).cohort)| == |Big(f, term).cohort|
    ensures |Keys(Small(f, term).cohort)| == |Small(f, term).cohort|
    ensures |Keys(Shrink(f).cohort)| == |Shrink(f).cohort|
  {
    hide Keys, BuildPolicyTransition, Frozen, Quorum;
  }

  lemma HistoriesAreSound(f: Fork)
    requires Forks(f)
    ensures SoundLog(SmallHistory(f)) && SoundLog(BigHistory(f))
  {
    hide PositionAt, FreezesAt, Keys, Big, Small, Shrink;
    assert SoundLog([]);
    hide SoundLog;
    CohortsAreDistinct(f, 1);
    CohortsAreDistinct(f, 2);
    CohortsAreDistinct(f, 4);
    CohortsAreDistinct(f, 5);
    CohortsAreDistinct(f, 6);
    DecidesFreeze(f);
    hide Forks;
    var one := [Propose(Big(f, 1))];
    SoundAppend([], Propose(Big(f, 1)));
    assert [] + [Propose(Big(f, 1))] == one;
    SoundAppend(one, Decide);
    assert one + [Decide] == Begun(f);
    SoundAppend(Begun(f), Propose(Shrink(f)));
    SoundAppend(ShrinkProposed(f), Decide);
    SoundAppend(ShrinkDecided(f), Propose(Small(f, 4)));
    SoundAppend(NextProposed(f), Decide);
    SoundAppend(NextDecided(f), Propose(Small(f, 6)));
    SoundAppend(Begun(f), Propose(Big(f, 2)));
    SoundAppend(RivalProposed(f), Decide);
    SoundAppend(RivalDecided(f), Propose(Big(f, 5)));
  }

  lemma SixLogs(f: Fork, t: nat)
    requires t < 6
    ensures Six(f)[t].log <= SmallHistory(f) || Six(f)[t].log <= BigHistory(f)
  {
    hide Big, Small, Shrink;
  }

  lemma EntriesHaveConfigs(f: Fork, j: nat)
    requires Forks(f)
    ensures j < |SmallHistory(f)| && SmallHistory(f)[j].Propose? ==>
              HasConfig(SmallHistory(f)[j].rule, f.big) || HasConfig(SmallHistory(f)[j].rule, f.small)
    ensures j < |BigHistory(f)| && BigHistory(f)[j].Propose? ==>
              HasConfig(BigHistory(f)[j].rule, f.big) || HasConfig(BigHistory(f)[j].rule, f.small)
  {
    hide HasConfig, Big, Small, Shrink, Forks;
    RulesHaveConfigs(f);
  }

  lemma SixAreSound(run: Run, f: Fork)
    requires Forks(f) && Tenures(run) == Six(f)
    ensures SoundLogs(run) && UsesOnly(run, f.big, f.small)
  {
    hide SoundLog, Big, Small, Shrink, HasConfig, Forks, Begun, ShrinkProposed, ShrinkDecided, NextProposed,
      NextDecided, SmallHistory, RivalProposed, RivalDecided, BigHistory;
    HistoriesAreSound(f);
    RulesHaveConfigs(f);
    forall t | 0 <= t < |Tenures(run)| ensures SoundLog(Tenures(run)[t].log) {
      SixLogs(f, t);
      SoundPrefix(Tenures(run)[t].log,
                  if Tenures(run)[t].log <= SmallHistory(f) then SmallHistory(f) else BigHistory(f));
    }
    forall t, j | 0 <= t < |Tenures(run)| && 0 <= j < |Tenures(run)[t].log| && Tenures(run)[t].log[j].Propose?
      ensures HasConfig(Tenures(run)[t].log[j].rule, f.big) || HasConfig(Tenures(run)[t].log[j].rule, f.small)
    {
      SixLogs(f, t);
      EntriesHaveConfigs(f, j);
    }
  }

  lemma RulesHaveConfigs(f: Fork)
    requires Forks(f)
    ensures forall term :: 1 <= term <= 6 ==> HasConfig(Big(f, term), f.big) && HasConfig(Small(f, term), f.small)
    ensures HasConfig(Shrink(f), f.small)
  {
    hide HasConfig, RuleFor, Frozen, Quorum, BuildPolicyTransition;
    forall term | 1 <= term <= 6 ensures HasConfig(Big(f, term), f.big) && HasConfig(Small(f, term), f.small) {
      RuleHasConfig(f.big, RuleNumber(term, 0));
      RuleHasConfig(f.small, RuleNumber(term, 0));
    }
    RuleHasConfig(f.small, RuleNumber(1, 1));
  }

  lemma HistoriesFork(f: Fork)
    ensures !(BigHistory(f) <= SmallHistory(f)) && !(SmallHistory(f) <= BigHistory(f))
    ensures !(BigHistory(f) <= NextProposed(f))
    ensures LastRule(BigHistory(f)).term == 5 && LastRule(SmallHistory(f)).term == 6
  {
    AllRules(f);
    HistoryPositions(f);
    hide Big, Small, Shrink, PositionAt;
    assert BigHistory(f)[2] == Propose(Big(f, 2)) && SmallHistory(f)[2] == NextProposed(f)[2] == Propose(Shrink(f));
  }

  // ---------------------------------------------------------------- what this means for rule changes

  /** Every decided change of the run is supported and frozen along with its decision, cohorts repeat no node, only
      two configurations are used, and yet two leaderships hold durable histories that fork. */
  lemma FrozenStepsAreNotEnough(f: Fork) returns (run: Run, m: nat)
    requires Forks(f)
    ensures Valid(run) && SoundLogs(run) && UsesOnly(run, f.big, f.small) && |Tenures(run)| == 6
    ensures Durable(run, 4, BigHistory(f), f.far, m) && Durable(run, 5, SmallHistory(f), f.few, m)
    ensures Term(Tenures(run)[4]) < Term(Tenures(run)[5]) && !(BigHistory(f) <= Tenures(run)[5].start)
    ensures !(BigHistory(f) <= SmallHistory(f)) && !(SmallHistory(f) <= BigHistory(f))
  {
    hide Valid, PositionAt, WriteQuorum, Big, Small, Shrink, SoundLogs, UsesOnly, HoldNow, Durable, LastRule, Froze,
      Keys, Begun, ShrinkProposed, ShrinkDecided, NextProposed, NextDecided, SmallHistory, RivalProposed,
      RivalDecided, BigHistory, Forks;
    var s;
    run, s := BothAreDurable(f);
    m := |run.states| - 1;
    HistoriesPass(f);
    HistoriesFork(f);
    HeldIsDurable(run, s, 4, BigHistory(f), f.far);
    HeldIsDurable(run, s, 5, SmallHistory(f), f.few);
    SixAreSound(run, f);
  }

  /** Every run between two configurations, in which only frozen changes are decided, preserves durable history. */
  ghost predicate SafeWhenFrozen(a: PolicyWithCohort, b: PolicyWithCohort) {
    forall run :: Valid(run) && UsesOnly(run, a, b) && SoundLogs(run) ==> Preserves(run)
  }

  /** The two sides of a change back that is not frozen. */
  lemma SidesExist(big: PolicyWithCohort, small: PolicyWithCohort) returns (few: set<string>, far: set<string>)
    requires Loosening(small, big) && !FreezesProposalToo(small, big)
    ensures Frozen(small, few) && Quorum(small, few) && Quorum(big, far) && few !! far
  {
    hide Keys, Loosening;
    var r, q :| Finishing(small, r) && Quorum(big, q) && !Meet(r, q);
    few, far := r * Keys(small.cohort), q;
    assert few * Keys(small.cohort) == few;
  }

  /** When no node satisfies the policy alone, members of the two sides can lead them. */
  lemma ForkInside(big: PolicyWithCohort, small: PolicyWithCohort) returns (f: Fork)
    requires Loosening(small, big) && NeedsTwo(big.policy) && !FreezesProposalToo(small, big)
    ensures Forks(f) && f.big == big && f.small == small && f.cluster == big.cohort
  {
    hide Keys, Loosening, Frozen, FreezesProposalToo, NeedsTwo, Satisfies;
    var few, far := SidesExist(big, small);
    var first := QuorumMember(small, few);
    var rival := QuorumMember(big, far);
    LooseningWidens(small, big);
    SmallNeedsTwo(big, small);
    TwoInQuorum(big, far);
    TwoInQuorum(small, few);
    assert |few + far| == |few| + |far|;
    SubsetCount(few + far, Keys(big.cohort));
    LeavingOneOut(big, first);
    LeavingOneOut(big, rival);
    f := Fork(big.cohort, big, small, few, far, first, rival);
  }

  lemma SmallNeedsTwo(big: PolicyWithCohort, small: PolicyWithCohort)
    requires Loosening(small, big) && NeedsTwo(big.policy)
    ensures NeedsTwo(small.policy)
  {
    hide Keys, Loosening;
    LooseningWidens(small, big);
  }

  /** In any case two nodes from outside the cohort can. */
  lemma ForkOutside(big: PolicyWithCohort, small: PolicyWithCohort) returns (f: Fork)
    requires Loosening(small, big) && !FreezesProposalToo(small, big)
    ensures Forks(f) && f.big == big && f.small == small
  {
    hide Loosening, Frozen, FreezesProposalToo, Satisfies, ClusterKey;
    var few, far := SidesExist(big, small);
    LooseningWidens(small, big);
    var x := FreshNode(big.cohort);
    var y := FreshNode(big.cohort + [x]);
    var cluster := big.cohort + [x, y];
    ClusterKeys(big.cohort, x, y);
    WholeCohort(big, far);
    hide Keys, Quorum;
    var all := Keys(cluster);
    FrozenMonotone(big, Keys(big.cohort), all - {ClusterKey(x)});
    FrozenMonotone(big, Keys(big.cohort), all - {ClusterKey(y)});
    f := Fork(cluster, big, small, few, far, ClusterKey(x), ClusterKey(y));
    QuorumsInside(big, small, few, far);
  }

  lemma QuorumsInside(big: PolicyWithCohort, small: PolicyWithCohort, few: set<string>, far: set<string>)
    requires Quorum(small, few) && Quorum(big, far)
    ensures few <= Keys(small.cohort) && far <= Keys(big.cohort)
  {
  }

  lemma ClusterKeys(ids: seq<ID>, x: ID, y: ID)
    requires ClusterKey(x) !in Keys(ids) && ClusterKey(y) !in Keys(ids + [x])
    ensures Keys(ids + [x, y]) == Keys(ids) + {ClusterKey(x), ClusterKey(y)} && ClusterKey(x) != ClusterKey(y)
  {
    hide ClusterKey;
    assert x in ids + [x] && x in ids + [x, y] && y in ids + [x, y];
    assert forall id :: id in ids + [x, y] <==> id in ids || id == x || id == y;
  }

  /** There is always another node. */
  lemma FreshNode(ids: seq<ID>) returns (x: ID)
    ensures ClusterKey(x) !in Keys(ids)
  {
    var name := LongName(ids);
    x := RawID("multipooler", "z", name);
    forall id | id in ids ensures ClusterKey(id) != ClusterKey(x) { assert |ClusterKey(id)| < |ClusterKey(x)|; }
  }

  lemma {:induction false} LongName(ids: seq<ID>) returns (name: string)
    ensures forall id :: id in ids ==> |ClusterKey(id)| < |name|
  {
    if ids == [] {
      name := "";
    } else {
      var rest := LongName(ids[1..]);
      name := rest + ClusterKey(ids[0]) + "x";
      hide ClusterKey;
      assert forall id :: id in ids ==> id == ids[0] || id in ids[1..];
    }
  }

  /** A tightening change is safe, even if it is the only change ever decided, exactly when the change back would be
      frozen too. */
  lemma TighteningIsSafeExactly(big: PolicyWithCohort, small: PolicyWithCohort)
    requires Loosening(small, big)
    ensures SafeWhenFrozen(big, small) <==> FreezesProposalToo(small, big)
  {
    hide Valid, Loosening, SoundLogs, HasConfig, Durable, BigHistory, SmallHistory, FreezesProposalToo;
    if FreezesProposalToo(small, big) {
      FrozenChangeIsSafe(small, big);
      forall run | Valid(run) && UsesOnly(run, big, small) && SoundLogs(run) ensures Preserves(run) {
        assert UsesOnly(run, small, big);
      }
    } else {
      hide UsesOnly, Forks;
      var f;
      if NeedsTwo(big.policy) { f := ForkInside(big, small); } else { f := ForkOutside(big, small); }
      var run, m := FrozenStepsAreNotEnough(f);
      assert !Preserves(run);
    }
  }

  /** Removing a node under AT_LEAST_N is safe exactly when N is a strict majority of the cohort. */
  lemma RemovingANodeIsSafeExactly(big: PolicyWithCohort, small: PolicyWithCohort)
    requires DuplicateFree(big) && DuplicateFree(small)
    requires big.policy.AtLeastN? && big.policy == small.policy
    requires |big.cohort| == |small.cohort| + 1 && Keys(small.cohort) <= Keys(big.cohort)
    ensures SafeWhenFrozen(big, small) <==> 2 * big.policy.n > |big.cohort|
  {
    hide FreezesProposalToo, SafeWhenFrozen, BuildPolicyTransition, Keys;
    GrowthByOneIsFrozen(small, big);
    TighteningIsSafeExactly(big, small);
  }

  // ---------------------------------------------------------------- every supported change

  /** A supported change loosens, tightens, or leaves the configuration as it is. */
  lemma SupportedIsComparable(a: PolicyWithCohort, b: PolicyWithCohort)
    requires DuplicateFree(a) && DuplicateFree(b) && BuildPolicyTransition(a, b).Ok?
    ensures Loosening(a, b) || Loosening(b, a) || (a.policy == b.policy && Keys(a.cohort) == Keys(b.cohort))
  {
    SameCohortIsEquality(a.cohort, b.cohort);
    SameCohortIsEquality(b.cohort, a.cohort);
    SubsetMeaning(a.cohort, b.cohort);
    SubsetMeaning(b.cohort, a.cohort);
    hide Keys, SameCohort, CohortIsSubsetOf;
  }

  /** Between two configurations a supported change leads between, every run is safe, whatever gets decided in it,
      exactly when the change and the change back are both frozen; and no less is enough for the runs that decide
      only frozen changes. */
  lemma SupportedChangeIsSafeExactly(a: PolicyWithCohort, b: PolicyWithCohort)
    requires DuplicateFree(a) && DuplicateFree(b) && BuildPolicyTransition(a, b).Ok?
    ensures SafeBetween(a, b) <==> FreezesProposalToo(a, b) && FreezesProposalToo(b, a)
    ensures SafeWhenFrozen(a, b) <==> FreezesProposalToo(a, b) && FreezesProposalToo(b, a)
  {
    hide Valid, WritesOnly, SoundLogs, HasConfig, Preserves, Loosening, FreezesProposalToo;
    SupportedIsComparable(a, b);
    hide BuildPolicyTransition;
    if Loosening(a, b) {
      OneDirectionDecides(a, b);
    } else if Loosening(b, a) {
      OneDirectionDecides(b, a);
      assert forall run :: UsesOnly(run, a, b) <==> UsesOnly(run, b, a) by { EitherOrder(a, b); }
    } else {
      LeaderChangesAreCompatible({a, b});
      CompatiblePairIsSafe(a, b);
      CompatibleFreezes(a, b);
      CompatibleFreezes(b, a);
    }
  }

  lemma EitherOrder(a: PolicyWithCohort, b: PolicyWithCohort)
    ensures forall run :: UsesOnly(run, a, b) <==> UsesOnly(run, b, a)
  {
    hide HasConfig;
  }

  lemma OneDirectionDecides(tight: PolicyWithCohort, loose: PolicyWithCohort)
    requires Loosening(tight, loose)
    ensures FreezesProposalToo(loose, tight)
    ensures SafeBetween(tight, loose) <==> FreezesProposalToo(tight, loose)
    ensures SafeWhenFrozen(tight, loose) <==> FreezesProposalToo(tight, loose)
  {
    hide Valid, UsesOnly, SoundLogs, Preserves, Loosening, FreezesProposalToo;
    ReverseFreezes(tight, loose);
    LooseningIsSafeExactly(tight, loose);
    TighteningIsSafeExactly(loose, tight);
    EitherOrder(tight, loose);
  }

  lemma CompatibleFreezes(a: PolicyWithCohort, b: PolicyWithCohort)
    requires Compatible({a, b})
    ensures FreezesProposalToo(a, b)
  {
    hide Meet, Satisfies, Quorum, Frozen;
    assert PairMeets(a, b);
  }
}
