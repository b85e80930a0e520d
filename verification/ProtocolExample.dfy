/** The safety theorems speak of something: a run of three AT_LEAST_2 nodes in which a client write becomes durable,
    its leader is lost, and another node takes over. */
module ProtocolExample {
  import opened Types
  import opened Policy
  import opened Durability
  import opened Proposals
  import opened Protocol
  import opened ProtocolInvariants
  import opened ProtocolHistory
  import opened ProtocolSafety
  import opened RunBuilding
  import opened GroupedRuns
  import opened RuleChanges

  datatype Trio = Trio(a: ID, b: ID, c: ID)

  ghost predicate Distinct(n: Trio) {
    ClusterKey(n.a) != ClusterKey(n.b) && ClusterKey(n.a) != ClusterKey(n.c) && ClusterKey(n.b) != ClusterKey(n.c)
  }

  function Config(n: Trio): PolicyWithCohort { PolicyWithCohort(AtLeastN(2), [n.a, n.b, n.c]) }

  /** Rule `term`, led by a node. */
  function LedBy(n: Trio, term: nat, leader: ID): ShardRule {
    RuleFor(Config(n), RuleNumber(term, 0)).(leader := Some(leader))
  }

  function Begun(n: Trio): Wal { [Propose(LedBy(n, 1, n.a)), Decide] }

  function Acknowledged(n: Trio): Wal { Begun(n) + [Write(7)] }

  function First(n: Trio, log: Wal): Tenure { Tenure(FirstRound, LedBy(n, 1, n.a), Begun(n), log) }

  function Second(n: Trio): Tenure {
    Tenure(RoundOf(2, RuleNumber(1, 0)), LedBy(n, 2, n.b), Acknowledged(n), Acknowledged(n))
  }

  function Each(n: Trio): Groups {
    Groups(Config(n).cohort, {ClusterKey(n.a)}, {ClusterKey(n.b)}, {ClusterKey(n.c)}, {})
  }

  const Acknowledging := Choice(true, true, false, false, false)
  const Surviving := Choice(false, true, true, false, false)

  function AB(n: Trio): set<string> { {ClusterKey(n.a), ClusterKey(n.b)} }

  function BC(n: Trio): set<string> { {ClusterKey(n.b), ClusterKey(n.c)} }

  lemma ThreeNodes(n: Trio)
    requires Distinct(n)
    ensures Keys(Config(n).cohort) == AB(n) + BC(n) && DuplicateFree(Config(n))
    ensures Frozen(Config(n), BC(n)) && Quorum(Config(n), BC(n)) && Quorum(Config(n), AB(n))
    ensures Pick(Each(n), Acknowledging) == AB(n) && Pick(Each(n), Surviving) == BC(n) && ClusterKey(n.b) in BC(n)
    ensures forall cs :: CellOfNode(Each(n), cs, ClusterKey(n.b)) == cs.b
  {
    hide ClusterKey, Frozen;
    var p := Config(n);
    assert forall id :: id in p.cohort <==> id == n.a || id == n.b || id == n.c;
    assert n.a in p.cohort && n.b in p.cohort && n.c in p.cohort;
    assert Keys(p.cohort) == {ClusterKey(n.a), ClusterKey(n.b), ClusterKey(n.c)};
    assert BC(n) * Keys(p.cohort) == BC(n) && |BC(n)| == 2 && |AB(n)| == 2;
    FrozenCount(p, BC(n));
  }

  lemma ExamplePositions(n: Trio)
    ensures PositionAt(Begun(n)) == PositionAt(Acknowledged(n)) == RulePosition(Some(LedBy(n, 1, n.a)), None)
    ensures PolicyOf(Some(LedBy(n, 1, n.a))).Ok? && InForce(Some(LedBy(n, 1, n.a))) == Config(n)
    ensures LedBy(n, 1, n.a).number == RuleNumber(1, 0) && Acknowledged(n)[..2] == Begun(n)
  {
    var rule := LedBy(n, 1, n.a);
    RuleForMeans(Config(n), RuleNumber(1, 0));
    assert [Propose(rule)][..0] == [] && Begun(n)[..1] == [Propose(rule)] && Acknowledged(n)[..2] == Begun(n);
    assert PositionAt([Propose(rule)]) == RulePosition(None, Some(rule));
  }

  /** What the round of `b` and `c` finds, and may propose. */
  lemma RoundPasses(n: Trio)
    requires Distinct(n)
    ensures Froze(PositionAt(Acknowledged(n)), BC(n)) && WriteQuorum(Acknowledged(n), AB(n))
    ensures LastRule(Acknowledged(n)) == RuleNumber(1, 0)
    ensures MayPropose(LedBy(n, 2, n.b), RoundOf(2, RuleNumber(1, 0)), Acknowledged(n), BC(n))
  {
    ThreeNodes(n);
    ExamplePositions(n);
    RuleForMeans(Config(n), RuleNumber(2, 0));
    assert BC(n) * Keys(Config(n).cohort) == BC(n);
    hide PositionAt, Frozen, Keys, Satisfies, AB, BC, Pick, CellOfNode;
  }

  lemma ClientWrites(n: Trio) returns (run: Run)
    requires Distinct(n)
    ensures var w := Cell(None, Acknowledged(n), 0);
            var c := Cell(None, Begun(n), 0);
            Runs(run, State(Grouped(Each(n), Cells(w, w, c, c, c)), [First(n, Acknowledged(n))]))
  {
    ExamplePositions(n);
    hide PositionAt, Valid, LedBy, Grouped, Pick;
    var g, c := Each(n), Cell(None, Begun(n), 0);
    run := GroupsBegin(g, LedBy(n, 1, n.a), Begun(n));
    run := GroupsWrite(run, g, Cells(c, c, c, c, c), [First(n, Begun(n))], 0, Write(7));
    assert [First(n, Begun(n))][0 := First(n, Acknowledged(n))] == [First(n, Acknowledged(n))];
    assert Delivered(First(n, Acknowledged(n)), true, PositionAt(Begun(n)));
    run := GroupsFollow(run, g, Cells(c, c, c, c, c), [First(n, Acknowledged(n))], Acknowledging, 0,
                        PositionAt(Begun(n)));
  }

  lemma LeaderIsReplaced(n: Trio) returns (run: Run, s: State)
    requires Distinct(n)
    ensures Runs(run, s) && s.tenures == [First(n, Acknowledged(n)), Second(n)] && HoldNow(s, 0, Acknowledged(n), AB(n))
  {
    hide PositionAt, Valid, LedBy, Grouped, Pick, Each, CellOfNode, Froze, MayPropose, WriteQuorum, Keys, AB, BC,
      Frozen, Quorum;
    ThreeNodes(n);
    ExamplePositions(n);
    RoundPasses(n);
    run := ClientWrites(n);
    hide Distinct;
    var g, ts, r2 := Each(n), [First(n, Acknowledged(n))], RoundOf(2, RuleNumber(1, 0));
    var w, c := Cell(None, Acknowledged(n), 0), Cell(None, Begun(n), 0);
    run := GroupsRecruit(run, g, Cells(w, w, c, c, c), ts, Surviving, 2, RuleNumber(1, 0));
    var cs := Cells(w, Cell(Some(r2), Acknowledged(n), 0), Cell(Some(r2), Begun(n), 0), c, c);
    run := GroupsPromote(run, g, cs, ts, Surviving, 2, RuleNumber(1, 0), ClusterKey(n.b), Acknowledged(n),
                         LedBy(n, 2, n.b));
    s := State(Grouped(g, cs), [First(n, Acknowledged(n)), Second(n)]);
    GroupsHold(g, cs, s.tenures, Acknowledging, 0, Acknowledged(n));
  }

  /** Such a run exists: a durable client write acknowledged by `a` and `b`, then a second leadership of `b`. */
  lemma FailoverHappens(n: Trio) returns (run: Run)
    requires Distinct(n)
    ensures Setup(run) && |Tenures(run)| == 2 && Term(Tenures(run)[0]) < Term(Tenures(run)[1])
    ensures Tenures(run)[0].opening.leader == Some(n.a) && Tenures(run)[1].opening.leader == Some(n.b)
    ensures Durable(run, 0, Acknowledged(n), AB(n), |run.states| - 1)
  {
    hide PositionAt, Valid, WriteQuorum, LastRule, HoldNow, AB, BC, Durable, Froze, MayPropose, Orderly, WritesOnly,
      Distinct, Acknowledged, Begun;
    var s;
    run, s := LeaderIsReplaced(n);
    RoundPasses(n);
    HeldIsDurable(run, s, 0, Acknowledged(n), AB(n));
    OneConfiguration(run, n);
    LeaderChangesAreOrderly(run, Config(n));
  }

  lemma OneConfiguration(run: Run, n: Trio)
    requires Distinct(n) && Tenures(run) == [First(n, Acknowledged(n)), Second(n)]
    ensures WritesOnly(run, Config(n), Config(n)) && DuplicateFree(Config(n))
  {
    ThreeNodes(n);
    ExamplePositions(n);
    hide Keys, PositionAt, Frozen, Quorum, Pick, CellOfNode;
    assert HasConfig(LedBy(n, 1, n.a), Config(n));
  }
}
