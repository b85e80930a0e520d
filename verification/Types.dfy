/** The consensus messages: node identities, rule numbers, shard rules, positions,
    term revocations and the status a node reports about itself. */
module Types {

  datatype Option<+T> = None | Some(value: T)

  datatype Result<+T, +E> = Ok(value: T) | Err(error: E)

  // ---------------------------------------------------------------- identities

  /** `component` is the rendered component type. */
  datatype RawID = RawID(component: string, cell: string, name: string)

  /** Cell names carry no underscore: that convention makes "cell_name" keys splittable. */
  type ID = id: RawID | '_' !in id.cell witness RawID("", "", "")

  /** The cluster-unique key of a node. */
  function ClusterKey(id: ID): string { id.cell + "_" + id.name }

  /** The key the cohort-safety checks compare. */
  function ComponentKey(id: ID): string { id.component + "-" + id.cell + "-" + id.name }

  /** The key of a possibly absent ID; an absent ID renders as the empty string. */
  function KeyOf(id: Option<ID>): string { if id.Some? then ClusterKey(id.value) else "" }

  /** The set of distinct keys in a list of IDs. */
  function Keys(ids: seq<ID>): set<string> { set id | id in ids :: ClusterKey(id) }

  /** The cell part of a key: everything before the first underscore. */
  function CellOf(key: string): string {
    if key == "" || key[0] == '_' then "" else [key[0]] + CellOf(key[1..])
  }

  lemma {:induction false} CellOfPrefix(cell: string, rest: string)
    requires '_' !in cell
    ensures CellOf(cell + "_" + rest) == cell
  {
    if cell != "" {
      assert (cell + "_" + rest)[1..] == cell[1..] + "_" + rest;
      CellOfPrefix(cell[1..], rest);
    }
  }

  /** A key determines the cell of the node it names. */
  lemma CellOfClusterKey(id: ID)
    ensures CellOf(ClusterKey(id)) == id.cell
  {
    CellOfPrefix(id.cell, id.name);
  }

  // ---------------------------------------------------------------- rules

  datatype RuleNumber = RuleNumber(term: nat, subterm: nat)

  /** "No rule recorded": what an absent rule number compares as. */
  const UNSET := RuleNumber(0, 0)

  datatype QuorumType = Unknown | AtLeast | MultiCellAtLeast

  datatype PolicySpec = PolicySpec(quorum: QuorumType, requiredCount: int, name: string)

  datatype ShardRule = ShardRule(
    number: RuleNumber,
    leader: Option<ID>,
    cohort: seq<ID>,
    policy: Option<PolicySpec>,
    coordinator: Option<ID>,
    creationTime: Option<int>)

  /** A settled decision and, possibly, a proposal written on top of it but not yet decided. */
  datatype RulePosition = RulePosition(decision: Option<ShardRule>, proposal: Option<ShardRule>)

  /** An LSN that does not parse is `None`. */
  datatype PoolerPosition = PoolerPosition(position: Option<RulePosition>, lsn: Option<nat>)

  // ---------------------------------------------------------------- promises and statuses

  datatype RecruitIntent = RecruitIntent(replaceDecision: RuleNumber, attempt: int)

  /** A node's promise. (revokedBelowTerm, coordinator, initiatedAt) identify the recruitment round. */
  datatype TermRevocation = TermRevocation(
    revokedBelowTerm: nat,
    coordinator: Option<ID>,
    initiatedAt: Option<int>,
    outgoingRule: Option<RuleNumber>,
    intent: Option<RecruitIntent>)

  datatype PoolerAddress = PoolerAddress(id: Option<ID>, host: string, port: int)

  datatype ReplicationPrimary = ReplicationPrimary(
    position: Option<RulePosition>, primary: Option<PoolerAddress>, rewindReady: bool)

  datatype ConsensusStatus = ConsensusStatus(
    id: Option<ID>,
    revocation: Option<TermRevocation>,
    current: Option<PoolerPosition>,
    replicationPrimary: Option<ReplicationPrimary>,
    recruitBlockedUntil: Option<PoolerPosition>)

  /** `transition` pairs the rule being left with the rule being proposed. */
  datatype CoordinatorProposal = CoordinatorProposal(
    revocation: Option<TermRevocation>,
    skipOutgoingQuorum: bool,
    leader: Option<ID>,
    transition: RulePosition)

  datatype CertifiedRevocation = CertifiedRevocation(
    revocation: Option<TermRevocation>, frozenLsn: Option<nat>)
}
