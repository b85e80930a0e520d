/** Runs of the whole protocol: nodes that give promises and replicate WAL, coordinators that act on
    snapshots of past statuses, and the leaderships ("tenures") their proposals start. */
module Protocol {
  import opened Types
  import opened Compare
  import opened Durability
  import opened Revocation
  import opened Proposals
  import opened Failover

  // ---------------------------------------------------------------- WALs

  /** `Decide` settles the outstanding proposal; `Write` is a client transaction. */
  datatype Entry = Propose(rule: ShardRule) | Decide | Write(data: int)

  type Wal = seq<Entry>

  /** The rule position a WAL records. */
  function PositionAt(wal: Wal): RulePosition {
    if wal == [] then RulePosition(None, None)
    else
      var p := PositionAt(wal[..|wal| - 1]);
      match wal[|wal| - 1]
      case Propose(rule) => p.(proposal := Some(rule))
      case Decide => RulePosition(p.proposal, None)
      case Write(_) => p
  }

  function At(wal: Wal): Option<PoolerPosition> { Some(PoolerPosition(Some(PositionAt(wal)), Some(|wal|))) }

  /** The last rule a WAL contains, decided or not. */
  function LastRule(wal: Wal): RuleNumber { NumberOf(PossiblyUndecidedRule(Some(PositionAt(wal)))) }

  function DecidedNumber(wal: Wal): RuleNumber { Numbers(Some(PositionAt(wal))).decision }

  /** What may follow a position: one proposal at a time, numbered above the decision it is written on. */
  predicate Follows(p: RulePosition, e: Entry) {
    match e
    case Propose(rule) => p.proposal.None? && CompareRuleNumbers(rule.number, NumberOf(p.decision)) > 0
    case Decide => p.proposal.Some?
    case Write(_) => true
  }

  predicate WellFormed(wal: Wal) {
    wal == [] || (WellFormed(wal[..|wal| - 1]) && Follows(PositionAt(wal[..|wal| - 1]), wal[|wal| - 1]))
  }

  // ---------------------------------------------------------------- states and actions

  /** `source` is the tenure the node last replicated from. */
  datatype Node = Node(id: ID, promise: Option<TermRevocation>, wal: Wal, source: nat)

  /** A leadership: the round that started it, the WAL it started from, and the WAL it has written. */
  datatype Tenure = Tenure(rev: TermRevocation, opening: ShardRule, start: Wal, log: Wal)

  datatype State = State(nodes: map<string, Node>, tenures: seq<Tenure>)

  datatype Action =
    | Recruit(key: string, rev: TermRevocation)
    | Promote(rev: TermRevocation, statuses: seq<ConsensusStatus>, builder: Builder, key: string, at: nat)
    | Append(tenure: nat, entry: Entry, nodes: set<string>)
    | Replicate(key: string, tenure: nat, length: nat, delivered: RulePosition)

  datatype Run = Run(states: seq<State>, actions: seq<Action>)

  function StatusOf(n: Node): ConsensusStatus {
    ConsensusStatus(Some(n.id), n.promise, At(n.wal), None, None)
  }

  function Term(t: Tenure): nat { t.rev.revokedBelowTerm }

  /** Tenure 0 is the initial leadership: its rule is decided and every node has it. */
  ghost predicate Init(s: State) {
    && |s.tenures| == 1
    && var t := s.tenures[0];
    && t.opening.number.term == Term(t) && !IsUnset(t.opening.number)
    && t.start == t.log == [Propose(t.opening), Decide]
    && forall k :: k in s.nodes ==>
         s.nodes[k].promise.None? && s.nodes[k].wal == t.log && s.nodes[k].source == 0 && ClusterKey(s.nodes[k].id) == k
  }

  /** Node `k` held `wal` while replicating from tenure `t`, at time `a`. */
  ghost predicate Acked(run: Run, t: nat, wal: Wal, k: string, a: nat) {
    && a < |run.states| && k in run.states[a].nodes
    && run.states[a].nodes[k].source == t && wal <= run.states[a].nodes[k].wal
  }

  /** Every one of `nodes` acknowledged `wal` to tenure `t` by time `m`. */
  ghost predicate AckedBy(run: Run, t: nat, wal: Wal, nodes: set<string>, m: nat) {
    forall k :: k in nodes ==> exists a: nat :: a <= m && Acked(run, t, wal, k, a)
  }

  /** `nodes` make `wal` durable: a quorum of the policy in force at its end. */
  ghost predicate WriteQuorum(wal: Wal, nodes: set<string>) {
    ExpectedPolicy(Some(PositionAt(wal))).Ok? && Quorum(ExpectedPolicy(Some(PositionAt(wal))).value, nodes)
  }

  /** What a leader may write next. Deciding needs the acknowledgement of the policy in force; the first
      proposal of a tenure opens its term, later ones count up; clients write once the opening is decided. */
  ghost predicate MayAppend(run: Run, i: nat, tenure: nat, e: Entry, nodes: set<string>)
    requires i < |run.states| && tenure < |run.states[i].tenures|
  {
    var t := run.states[i].tenures[tenure];
    var decided := DecidedNumber(t.log);
    && Follows(PositionAt(t.log), e)
    && match e
       case Decide => WriteQuorum(t.log, nodes) && AckedBy(run, tenure, t.log, nodes, i)
       case Propose(rule) =>
         if decided.term < Term(t) then rule == t.opening
         else rule.number == RuleNumber(Term(t), decided.subterm + 1)
       case Write(_) => decided.term == Term(t)
  }

  /** The position a node is told a tenure is at: its opening transition, or anything its log has decided. */
  ghost predicate Delivered(t: Tenure, genesis: bool, pos: RulePosition) {
    || (!genesis && Numbers(Some(pos)) == NumberPosition(OutgoingOf(Some(t.rev)), t.opening.number))
    || exists j :: 0 <= j <= |t.log| && PositionAt(t.log[..j]) == pos && DecidedNumber(t.log[..j]).term == Term(t)
  }

  ghost predicate Step(run: Run, i: nat)
    requires i + 1 < |run.states| && i < |run.actions|
  {
    var s, s' := run.states[i], run.states[i + 1];
    match run.actions[i]
    case Recruit(k, rev) =>
      && k in s.nodes && Accepts(StatusOf(s.nodes[k]), rev)
      && s' == s.(nodes := s.nodes[k := s.nodes[k].(promise := Some(rev))])
    case Promote(rev, statuses, builder, k, at) =>
      // Statuses are snapshots taken at any earlier time, and a round starts at most one tenure.
      && (forall cs :: cs in statuses ==>
           exists b, j :: 0 <= b <= i && j in run.states[b].nodes && cs == StatusOf(run.states[b].nodes[j]))
      && BuildSafeProposal(Some(rev), statuses, builder).Ok?
      && (forall t :: 0 < t < |s.tenures| ==> !SameRound(s.tenures[t].rev, rev))
      && var p := BuildSafeProposal(Some(rev), statuses, builder).value;
      && p.transition.proposal.Some?
      && at <= i && k in run.states[at].nodes && k == KeyOf(p.leader)
      && LeadsFrom(StatusOf(run.states[at].nodes[k]), RoundRecruits(rev, statuses), RoundPosition(rev, statuses))
      && var start := run.states[at].nodes[k].wal;
      && s' == s.(tenures := s.tenures + [Tenure(rev,
              p.transition.proposal.value.(number := RuleNumber(rev.revokedBelowTerm, 0)), start, start)])
    case Append(t, e, nodes) =>
      && t < |s.tenures| && MayAppend(run, i, t, e, nodes)
      && s' == s.(tenures := s.tenures[t := s.tenures[t].(log := s.tenures[t].log + [e])])
    case Replicate(k, t, length, delivered) =>
      && k in s.nodes && t < |s.tenures| && length <= |s.tenures[t].log|
      && Delivered(s.tenures[t], t == 0, delivered) && !IsRuleRevoked(Some(delivered), s.nodes[k].promise)
      && ComparePoolerPosition(At(s.tenures[t].log[..length]), At(s.nodes[k].wal)) >= 0
      && s' == s.(nodes := s.nodes[k := s.nodes[k].(wal := s.tenures[t].log[..length], source := t)])
  }

  ghost predicate Valid(run: Run) {
    && |run.states| == |run.actions| + 1
    && Init(run.states[0])
    && forall i :: 0 <= i < |run.actions| ==> Step(run, i)
  }
}
