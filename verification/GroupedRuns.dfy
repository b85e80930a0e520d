/** Runs in which nodes behave alike in a few groups: a state is one cell per group, and a step names the groups
    that take part in it. */
module GroupedRuns {
  import opened Types
  import opened Compare
  import opened Policy
  import opened Durability
  import opened Revocation
  import opened Proposals
  import opened Protocol
  import opened ProtocolInvariants
  import opened ProtocolHistory
  import opened RunBuilding

  // ---------------------------------------------------------------- rules and rounds

  const Coordinator: ID := RawID("multiorch", "zone1", "c")

  function SpecOf(p: Policy): PolicySpec {
    match p
    case AtLeastN(n) => PolicySpec(AtLeast, n, "")
    case MultiCell => PolicySpec(MultiCellAtLeast, 2, "")
  }

  /** A rule with a given configuration. */
  function RuleFor(p: PolicyWithCohort, number: RuleNumber): ShardRule {
    ShardRule(number, None, p.cohort, Some(SpecOf(p.policy)), Some(Coordinator), Some(0))
  }

  lemma RuleForMeans(p: PolicyWithCohort, number: RuleNumber)
    ensures PolicyOf(Some(RuleFor(p, number))).Ok? && InForce(Some(RuleFor(p, number))) == p
    ensures RuleFor(p, number).number == number
  {
  }

  const FirstRound := TermRevocation(1, None, None, None, None)

  function RoundOf(term: nat, outgoing: RuleNumber): TermRevocation {
    TermRevocation(term, Some(Coordinator), Some(1), Some(outgoing), None)
  }

  lemma SameCohortAsItself(ids: seq<ID>)
    ensures SameCohort(ids, ids)
  {
    forall id | id in ids ensures MemberOf(ids, id) { assert ClusterKey(id) in Keys(ids); }
  }

  /** A round that found nothing stuck, or a rule of the configuration it proposes, may propose that configuration. */
  lemma MayProposeSame(p: PolicyWithCohort, term: nat, outgoing: RuleNumber, wal: Wal, ks: set<string>,
                       stuck: RuleNumber)
    requires PositionAt(wal).proposal.None? || PositionAt(wal).proposal == Some(RuleFor(p, stuck))
    requires Satisfies(p.policy, ks * Keys(p.cohort))
    ensures MayPropose(RuleFor(p, RuleNumber(term, 0)), RoundOf(term, outgoing), wal, ks)
  {
    hide PositionAt, Satisfies, Keys;
    RuleForMeans(p, RuleNumber(term, 0));
    SameCohortAsItself(p.cohort);
    hide SameCohort;
  }

  // ---------------------------------------------------------------- groups of nodes

  /** Four groups of the nodes of a cohort; everyone else is the fifth. */
  datatype Groups = Groups(cohort: seq<ID>, a: set<string>, b: set<string>, c: set<string>, d: set<string>)

  datatype Cell = Cell(promise: Option<TermRevocation>, wal: Wal, source: nat)

  datatype Cells = Cells(a: Cell, b: Cell, c: Cell, d: Cell, e: Cell)

  datatype Choice = Choice(a: bool, b: bool, c: bool, d: bool, e: bool)

  function CellOfNode(g: Groups, cs: Cells, k: string): Cell {
    if k in g.a then cs.a else if k in g.b then cs.b else if k in g.c then cs.c else if k in g.d then cs.d else cs.e
  }

  predicate Chosen(g: Groups, ch: Choice, k: string) {
    if k in g.a then ch.a else if k in g.b then ch.b else if k in g.c then ch.c else if k in g.d then ch.d else ch.e
  }

  function Pick(g: Groups, ch: Choice): set<string> { set k | k in Keys(g.cohort) && Chosen(g, ch, k) }

  function NodeFor(g: Groups, cs: Cells, k: string): Node
    requires k in Keys(g.cohort)
  {
    var c := CellOfNode(g, cs, k);
    Node(ByKey(g.cohort)[k], c.promise, c.wal, c.source)
  }

  function Grouped(g: Groups, cs: Cells): map<string, Node> { map k | k in Keys(g.cohort) :: NodeFor(g, cs, k) }

  function With(cs: Cells, ch: Choice, f: Cell -> Cell): Cells {
    Cells(if ch.a then f(cs.a) else cs.a, if ch.b then f(cs.b) else cs.b, if ch.c then f(cs.c) else cs.c,
          if ch.d then f(cs.d) else cs.d, if ch.e then f(cs.e) else cs.e)
  }

  ghost predicate All(cs: Cells, ch: Choice, f: Cell -> bool) {
    && (ch.a ==> f(cs.a)) && (ch.b ==> f(cs.b)) && (ch.c ==> f(cs.c)) && (ch.d ==> f(cs.d)) && (ch.e ==> f(cs.e))
  }

  function Adopt(wal: Wal, t: nat): Cell -> Cell { (c: Cell) => c.(wal := wal, source := t) }

  function Pledge(rev: TermRevocation): Cell -> Cell { (c: Cell) => c.(promise := Some(rev)) }

  lemma GroupsAdopt(g: Groups, cs: Cells, ch: Choice, wal: Wal, t: nat)
    ensures Adopted(Grouped(g, cs), Pick(g, ch), wal, t) == Grouped(g, With(cs, ch, Adopt(wal, t)))
  {
    hide Keys, ByKey;
  }

  lemma GroupsPledge(g: Groups, cs: Cells, ch: Choice, rev: TermRevocation)
    ensures Pledged(Grouped(g, cs), Pick(g, ch), rev) == Grouped(g, With(cs, ch, Pledge(rev)))
  {
    hide Keys, ByKey;
  }

  lemma ChosenSatisfies(g: Groups, cs: Cells, ch: Choice, f: Cell -> bool, k: string)
    requires All(cs, ch, f) && k in Pick(g, ch)
    ensures f(CellOfNode(g, cs, k))
  {
  }

  // ---------------------------------------------------------------- steps

  lemma GroupsBegin(g: Groups, rule: ShardRule, wal: Wal) returns (run: Run)
    requires wal == [Propose(rule), Decide] && rule.number == RuleNumber(1, 0)
    ensures var c := Cell(None, wal, 0);
            Runs(run, State(Grouped(g, Cells(c, c, c, c, c)), [Tenure(FirstRound, rule, wal, wal)]))
  {
    var c := Cell(None, wal, 0);
    run := Begin(State(Grouped(g, Cells(c, c, c, c, c)), [Tenure(FirstRound, rule, wal, wal)]));
  }

  function Follower(wal: Wal, z: RulePosition): Cell -> bool {
    (c: Cell) => !IsRuleRevoked(Some(z), c.promise) && ComparePoolerPosition(At(wal), At(c.wal)) >= 0
  }

  lemma GroupsFollow(run: Run, g: Groups, cs: Cells, ts: seq<Tenure>, ch: Choice, t: nat, z: RulePosition)
    returns (next: Run)
    requires Runs(run, State(Grouped(g, cs), ts)) && t < |ts| && Delivered(ts[t], t == 0, z)
    requires All(cs, ch, Follower(ts[t].log, z))
    ensures Runs(next, State(Grouped(g, With(cs, ch, Adopt(ts[t].log, t))), ts))
  {
    hide Keys, ByKey, Valid, Delivered, IsRuleRevoked, ComparePoolerPosition, At, CellOfNode, All;
    var s := State(Grouped(g, cs), ts);
    forall k | k in Pick(g, ch) ensures MayFollow(s, k, t, ts[t].log, z) {
      ChosenSatisfies(g, cs, ch, Follower(ts[t].log, z), k);
    }
    next := DoFollow(run, s, Pick(g, ch), t, ts[t].log, z);
    GroupsAdopt(g, cs, ch, ts[t].log, t);
  }

  lemma GroupsWrite(run: Run, g: Groups, cs: Cells, ts: seq<Tenure>, t: nat, e: Entry) returns (next: Run)
    requires Runs(run, State(Grouped(g, cs), ts)) && t < |ts| && !e.Decide?
    requires MayWrite(State(Grouped(g, cs), ts), t, e, {})
    ensures Runs(next, State(Grouped(g, cs), ts[t := ts[t].(log := ts[t].log + [e])]))
  {
    hide Valid, MayWrite, Grouped;
    next := DoWrite(run, State(Grouped(g, cs), ts), t, e, {});
  }

  function Holder(wal: Wal, t: nat): Cell -> bool { (c: Cell) => c.source == t && wal <= c.wal }

  lemma GroupsHold(g: Groups, cs: Cells, ts: seq<Tenure>, ch: Choice, t: nat, wal: Wal)
    requires All(cs, ch, Holder(wal, t))
    ensures HoldNow(State(Grouped(g, cs), ts), t, wal, Pick(g, ch))
  {
    hide Keys, ByKey, CellOfNode, All;
    forall k | k in Pick(g, ch)
      ensures var nodes := Grouped(g, cs); k in nodes && nodes[k].source == t && wal <= nodes[k].wal
    {
      ChosenSatisfies(g, cs, ch, Holder(wal, t), k);
    }
  }

  lemma GroupsDecide(run: Run, g: Groups, cs: Cells, ts: seq<Tenure>, t: nat, ch: Choice) returns (next: Run)
    requires Runs(run, State(Grouped(g, cs), ts)) && t < |ts| && PositionAt(ts[t].log).proposal.Some?
    requires WriteQuorum(ts[t].log, Pick(g, ch)) && All(cs, ch, Holder(ts[t].log, t))
    ensures Runs(next, State(Grouped(g, cs), ts[t := ts[t].(log := ts[t].log + [Decide])]))
  {
    hide Valid, WriteQuorum, PositionAt, Grouped, Pick, All;
    GroupsHold(g, cs, ts, ch, t, ts[t].log);
    next := DoWrite(run, State(Grouped(g, cs), ts), t, Decide, Pick(g, ch));
  }

  /** A cell that may promise a round. */
  function Recruitable(rev: TermRevocation): Cell -> bool {
    (c: Cell) =>
      && IsRuleRevoked(Some(PositionAt(c.wal)), Some(rev))
      && (c.promise.Some? ==>
            c.promise.value.revokedBelowTerm < rev.revokedBelowTerm
            && CompareRuleNumbers(OutgoingOf(Some(rev)), OutgoingOf(c.promise)) >= 0)
  }

  lemma CellAccepts(id: ID, c: Cell, term: nat, outgoing: RuleNumber)
    requires Recruitable(RoundOf(term, outgoing))(c) && outgoing.term < term && !IsUnset(outgoing)
    ensures Accepts(StatusOf(Node(id, c.promise, c.wal, c.source)), RoundOf(term, outgoing))
  {
    hide PositionAt, IsRuleRevoked;
  }

  lemma GroupsRecruit(run: Run, g: Groups, cs: Cells, ts: seq<Tenure>, ch: Choice, term: nat, outgoing: RuleNumber)
    returns (next: Run)
    requires Runs(run, State(Grouped(g, cs), ts)) && outgoing.term < term && !IsUnset(outgoing)
    requires All(cs, ch, Recruitable(RoundOf(term, outgoing)))
    ensures Runs(next, State(Grouped(g, With(cs, ch, Pledge(RoundOf(term, outgoing)))), ts))
  {
    hide Keys, ByKey, Valid, Accepts, PositionAt, At, Recruitable, CellOfNode, All;
    var s, rev := State(Grouped(g, cs), ts), RoundOf(term, outgoing);
    forall k | k in Pick(g, ch) ensures k in s.nodes && Accepts(StatusOf(s.nodes[k]), rev) {
      ChosenSatisfies(g, cs, ch, Recruitable(rev), k);
      CellAccepts(ByKey(g.cohort)[k], CellOfNode(g, cs, k), term, outgoing);
    }
    next := DoRecruit(run, s, Pick(g, ch), rev);
    GroupsPledge(g, cs, ch, rev);
  }

  /** A recruit of a round whose leader records `wal`. */
  function Behind(rev: TermRevocation, wal: Wal): Cell -> bool {
    (c: Cell) =>
      && c.promise == Some(rev) && !IsUnset(DecidedNumber(c.wal)) && ComparePoolerPosition(At(wal), At(c.wal)) >= 0
      && (CompareRulePosition(Some(PositionAt(c.wal)), Some(PositionAt(wal))) == 0 ==>
            PositionAt(c.wal) == PositionAt(wal))
  }

  lemma GroupsPromote(run: Run, g: Groups, cs: Cells, ts: seq<Tenure>, ch: Choice, term: nat, outgoing: RuleNumber,
                      leader: string, wal: Wal, rule: ShardRule) returns (next: Run)
    requires Runs(run, State(Grouped(g, cs), ts)) && leader in Pick(g, ch) && CellOfNode(g, cs, leader).wal == wal
    requires All(cs, ch, Behind(RoundOf(term, outgoing), wal))
    requires Froze(PositionAt(wal), Pick(g, ch)) && outgoing == LastRule(wal)
    requires forall t :: 0 < t < |ts| ==> Term(ts[t]) != term
    requires MayPropose(rule, RoundOf(term, outgoing), wal, Pick(g, ch))
    ensures Runs(next, State(Grouped(g, cs), ts + [Tenure(RoundOf(term, outgoing), rule, wal, wal)]))
  {
    hide Keys, Valid, PositionAt, At, Froze, LastRule, DecidedNumber, ComparePoolerPosition, CompareRulePosition,
      MayPropose, CellOfNode, All, ClusterKey;
    var s, rev := State(Grouped(g, cs), ts), RoundOf(term, outgoing);
    forall k | k in Pick(g, ch)
      ensures && k in s.nodes && s.nodes[k].promise == Some(rev) && ClusterKey(s.nodes[k].id) == k
              && !IsUnset(DecidedNumber(s.nodes[k].wal)) && ComparePoolerPosition(At(wal), At(s.nodes[k].wal)) >= 0
              && (CompareRulePosition(Some(PositionAt(s.nodes[k].wal)), Some(PositionAt(wal))) == 0 ==>
                    PositionAt(s.nodes[k].wal) == PositionAt(wal))
    {
      ChosenSatisfies(g, cs, ch, Behind(rev, wal), k);
    }
    hide Behind;
    assert Recruited(s, Pick(g, ch), rev, leader);
    next := DoPromote(run, s, Pick(g, ch), rev, leader, rule);
  }

  lemma HeldIsDurable(run: Run, s: State, t: nat, p: Wal, nodes: set<string>)
    requires Runs(run, s) && t < |s.tenures| && p <= s.tenures[t].log && LastRule(p).term == Term(s.tenures[t])
    requires WriteQuorum(p, nodes) && HoldNow(s, t, p, nodes)
    ensures Durable(run, t, p, nodes, |run.states| - 1) && Tenures(run) == s.tenures
  {
    hide Valid, WriteQuorum, LastRule, HoldNow, AckedBy;
    HeldIsAcknowledged(run, t, p, nodes, |run.states| - 1);
  }
}
