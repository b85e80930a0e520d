# Multigres failover consensus: a Dafny model

A Dafny model of the decision layer of Multigres' generalized-consensus failover protocol
(`go/common/consensus`), of the pooler steps that use it, and of three small self-contained algorithms of
the same code base: shard names, the prepared-statement consolidator, and the lexer's `U&` escapes and
integer literals.

`dafny verify dfyconfig.toml` checks everything.

## What is modelled

| file | content |
|---|---|
| `Types.dfy` | node identities, rule numbers, shard rules, positions, revocations, statuses, proposals |
| `Collections.dfy` | filters, sorted map values, counting |
| `Compare.dfy` | the order of rules and positions, running maxima, merging replication primaries |
| `Policy.dfy` | AT_LEAST_N and MULTI_CELL, ID normalization, synchronous-replication settings |
| `Durability.dfy` | recruitment sufficiency, policy transitions, quorum intersections, cohort safety |
| `Revocation.dfy` | promises: what they forbid, when they are given, how they are authored |
| `Proposals.dfy` | the pipeline observed, revoked, finalizable, proposed |
| `Failover.dfy` | which proposals a round builds, what one round guarantees and what two competing rounds cannot both do |
| `PreVote.dfy` | the feasibility check against the round it predicts |
| `Completion.dfy` | from a survey to a proposal: when a failover completes |
| `Protocol.dfy`, `ProtocolInvariants.dfy`, `ProtocolHistory.dfy` | runs of nodes, coordinators and leaderships; what every step keeps; where WALs come from |
| `RuleFamilies.dfy` | rules that protect each other pair by pair, and shrinks whose recruitments can miss each other |
| `ProtocolSafety.dfy` | one leadership per term, leader completeness, no split brain, across changes of cohort and policy |
| `RunBuilding.dfy`, `GroupedRuns.dfy` | extending a run by steps whose conditions hold in its last state; runs in which nodes act in a few groups |
| `RuleChanges.dfy` | exactly which loosening changes are safe, with the run that loses a write for every other |
| `ForkedRun.dfy` | split brains in which every decided change is frozen along with its decision, and exactly which tightening changes, and which supported changes of any kind, exclude them |
| `ProtocolExample.dfy` | three nodes, a durable write and a failover to another node |
| `Digits.dfy` | bytes, 32-bit words and digits |
| `KeyRange.dfy`, `Consolidator.dfy`, `UnicodeEscape.dfy`, `IntegerLiteral.dfy` | the secondary algorithms |

The run model. A state holds nodes (promise, WAL, the leadership last replicated from) and *tenures*: a
leadership with the round that started it, the WAL it started from and the log it has written. A WAL is a
sequence of proposals, decisions and client writes; its rule position is computed from it. The steps are:

* *Recruit*: a node stores a revocation that `ValidateRevocation` accepts (`AcceptRevocation`,
  `consensus_promises.go:171-187`).
* *Promote*: a coordinator holding statuses taken at any earlier times, in any mix, gets a proposal out of
  `BuildSafeProposal` with any builder; a tenure starts from the WAL of the leader it names. A round starts
  at most one tenure.
* *Append*: a leader decides the outstanding proposal once a quorum of the policy in force acknowledged it,
  opens its own term, numbers later rules upward, and takes client writes once its opening rule is decided
  (`UpdateRule`, `rule_store.go:824-1069`).
* *Replicate*: a node adopts a prefix of a tenure's log, upward only, and only if its promise does not
  forbid the position it was told (`SetPrimary`, `rpc_consensus.go:776-786`): the tenure's opening
  transition, or a position at which the tenure had decided a rule of its own.

The policy in force at the end of a WAL is the one `expectedSyncStandbyPolicy` computes from the recorded
position (`rule_store.go:161-186`), which is what `ReconcileGUC` applies. `UpdateRule` itself keeps the combined
policy until the decision is acknowledged too; the model allows the earlier switch, so it has more runs, not
fewer.

Modelling conventions. Terms and subterms are natural numbers (no 64-bit overflow); an absent rule number is
(0, 0), as `CompareRuleNumbers` reads it; an LSN is a number or unparsable; timestamps are integers. A node
key is `cell_name` and a cell name has no underscore. Strings are byte sequences with one `char` per byte.
Errors are enumerations; their texts are not modelled. Which of several failing checks of a proposal is reported
first is part of the model and not stated about it. A mutable loop is a method proved against a recursive
function, and the results are lemmas about that function. An outstanding proposal is numbered above the
decision it was written on (`WellNumbered`), as `UpdateRule` writes it.

What the run theorems assume. Cohorts repeat no node; every proposal that gets decided is *frozen along with the
decision it stands on* (`FreezesProposalToo`: recruits that freeze the decision and could finish a write under it
see every quorum of the proposal); and one of two things. Either the rules of the run are *interlocked*: any two freeze
each other, and recruits that could pass on one overlap those that could pass on another. Or every round rests on a
*confirmed* configuration: since the cohort or policy of the decision it finds last changed, some leader decided a rule
of its own term under it. Rules may otherwise change cohort, policy and leader without limit. Alternatively all rules of
the run come from a family in which any two protect each other, and then nothing else is assumed. Runs that change only
leaders satisfy the assumptions as they are (`RuleChanges.LeaderChangesAreOrderly`).

Between two configurations the conditions are exact, and they are conditions on the two configurations alone:

* For every change `BuildPolicyTransition` supports, all runs that use only the two configurations preserve durable
  history if and only if the change and the change back are both frozen
  (`ForkedRun.SupportedChangeIsSafeExactly`). Nothing is confirmed, rounds may find a change undecided or decided by a
  successor, and the configuration may change back and forth.
* A loosening change (the combined policy is the decision's) is safe if and only if it is frozen along with its
  decision (`RuleChanges.LooseningIsSafeExactly`): otherwise a run loses a durable client write. In that run the leader
  that decides the change writes nothing under it: the decision reaches one node, which the next round promotes. For AT_LEAST_N that is a count of nodes; for adding one node it means that N is a strict majority of the
  grown cohort (`RuleChanges.AddingANodeIsSafeExactly`), so in the model an AT_LEAST_2 cohort of three cannot safely
  grow, while replacing a member of it by removing and then adding one is frozen at both steps
  (`Durability.ReplacingAMemberIsFrozen`). The safe half covers leaders that apply the incoming policy before the
  decision is acknowledged, which is the question `rule_store.go:1051-1056` leaves open.
* Tightening changes are always frozen (`Durability.TighteningFreezesProposal`), and that is not enough
  (`ForkedRun.FrozenStepsAreNotEnough`): a shrink that only a successor decides and one node sees lets a later round
  count the smaller cohort while another leadership, which never saw the shrink, has made history durable under the
  larger one. A tightening change is safe, in runs that decide only frozen changes, if and only if the change back
  would be frozen too (`ForkedRun.TighteningIsSafeExactly`); for removing one node it means that N is a strict majority
  of the cohort it is removed from (`ForkedRun.RemovingANodeIsSafeExactly`).

Other findings.

* `revokeByRecruitment` counts on every competing coordinator recruiting one cohort (`outgoing_rule.go:115-124`). Two
  rounds that found different decisions overlap when one found undecided what the other found decided, and that
  needs the finalize check (`Durability.CrossEpochOverlap`); for sets that pass on a decision and on its shrunk
  successor, `RuleFamilies.ShrinkingSplitsRecruitment` says exactly when they can miss each other.
* `sameCohort` compares lengths and one-way membership, so lists with duplicates can pass as equal
  (`Durability.DuplicatesDefeatBoth`); `Durability.BothCohortInside` says exactly when that matters.
* `dedupKey` uses a bare query as its own key, so a query without parameter types can take the name of another
  statement; `Consolidator.NamesIdentifyStatements` and `Consolidator.ShadowingIsDetectable` say exactly when.

## Model

| member | source | states |
|---|---|---|
| `Compare.HighestKnownRuleIsMaximum` | go/common/consensus/compare.go:246-259 | the running maximum over both reported positions is reported by some status and nothing reported is ahead of it |
| `Compare.ScanHighestKnownRule` | go/common/consensus/compare.go:246-259 | the loop computes that maximum |
| `Compare.MergeChangedIsExact` | go/common/consensus/compare.go:326-355 | the change flag is set if and only if the merged value differs |
| `Compare.MergeIsExact` | go/common/consensus/compare.go:326-355 | an observation behind what is recorded, or without a rule, changes nothing; any other gives its position if ahead, its address if it has one, and its readiness, to which recorded readiness of the same term is added |
| `Compare.MergeAllKeepsMaximum` | go/common/consensus/compare.go:326-355 | over any sequence of observations the recorded position never goes back and is the most advanced one seen, and a known address is never lost |
| `Compare.MergeAllRecordsLatestAddress` | go/common/consensus/compare.go:326-355 | over any sequence of observations the recorded address is that of the last one that had an address and was not behind what was recorded |
| `Compare.MergeAllKeepsRewindReady` | go/common/consensus/compare.go:326-355 | within one coordinator term rewind readiness never turns off, and turns on only if some observation reported it |
| `Policy.ParsePolicyIsExact` | go/common/consensus/durability.go:99-121 | AT_LEAST_N stands for its count, MULTI_CELL for a count of two, and every other specification is refused |
| `Policy.SatisfiesMonotone` | go/common/consensus/policy_multi_cell.go:32-44 | more nodes never break a policy |
| `Policy.Normalize` | go/common/consensus/durability.go:292-298 | the loop computes the distinct IDs in key order |
| `Policy.NormalizeIDs` | go/common/consensus/durability.go:292-298 | same keys as the list, one ID each, all from the list |
| `Policy.NormalizeIsSorted` | go/common/consensus/durability.go:288-298 | the list ascends by key and keeps the last entry of each |
| `Policy.SatisfiedByMeaning` | go/common/consensus/policy_at_least_n.go:32-39 | the list check decides the set condition whatever duplicates the list carries, for both policies |
| `Policy.EligibleStandbys` | go/common/consensus/policy_multi_cell.go:52-83 | the loop collects the cohort members outside the primary's cell, in order |
| `Policy.OtherCellsKeepOrder` | go/common/consensus/policy_multi_cell.go:52-83 | the standbys of two cohort lists one after the other are those of the first, then those of the second |
| `Policy.SyncConfigIsExact` | go/common/consensus/policy_at_least_n.go:49-83 | acknowledgements release a commit if and only if they, with the primary, satisfy the policy, for both policies |
| `Policy.SyncConfigExists` | go/common/consensus/policy_multi_cell.go:52-83 | settings exist if and only if the primary is in the cohort and the whole cohort satisfies the policy |
| `Policy.SyncConfigIsWellFormed` | go/common/consensus/policy_at_least_n.go:49-83 | settings are local if and only if the primary alone satisfies the policy, and otherwise wait for at least one and at most as many standbys as are listed besides the primary |
| `Durability.SufficientRecruitmentMeaning` | go/common/consensus/durability.go:358-401 | the list check is the set condition: inside the cohort, a strict majority, leftovers below the policy |
| `Durability.RecruitmentsMeet` | go/common/consensus/durability.go:322-378 | two sufficient recruitments of one cohort share a node, whatever their policies |
| `Durability.RecruitmentMeetsQuorum` | go/common/consensus/durability.go:389-401 | a sufficient recruitment contains a member of every quorum of its cohort |
| `Durability.CompareCohorts` | go/common/consensus/durability.go:260-271 | the loop decides length plus one-way membership, which is set equality when the second list is duplicate-free |
| `Durability.BothCohortInside` | go/common/consensus/durability.go:208-244 | the combined cohort lies inside both cohorts if and only if a lowered count does not meet an outgoing cohort outside the incoming one |
| `Durability.DuplicatesDefeatBoth` | go/common/consensus/durability.go:260-271 | duplicate entries can make an accepted transition need a node outside the incoming cohort |
| `Durability.TransitionExists` | go/common/consensus/durability.go:208-244 | over duplicate-free cohorts a change is accepted if and only if the policy family stays and either the cohort does, or the count does and one cohort contains the other |
| `Durability.TransitionIsExact` | go/common/consensus/durability.go:208-244 | the policy installed afterwards has exactly the quorums of the incoming rule, and over duplicate-free cohorts the combined policy has exactly the sets that are quorums of both rules |
| `Durability.BothRefinesBoth` | go/common/consensus/durability.go:208-244 | over duplicate-free cohorts a combined quorum is a quorum of the outgoing and of the incoming rule |
| `Durability.RecruitmentMeetsBothQuorum` | go/common/consensus/outgoing_rule.go:115-136 | whatever is durable while a proposal is undecided is seen by the decision's recruits |
| `Durability.CrossEpochOverlap` | go/common/consensus/outgoing_rule.go:125-188 | recruits that can finish a proposal on one decision meet recruits that freeze that proposal as a decision |
| `Durability.FinishersSatisfyDecision` | go/common/consensus/outgoing_rule.go:162-188 | recruits that can finish a proposal satisfy the policy of the decision it stands on |
| `Durability.TighteningFreezesProposal` | go/common/consensus/durability.go:208-244 | when the combined policy is the incoming one, freezing the decision freezes the proposal too |
| `Durability.CountingFreezesProposal` | go/common/consensus/durability.go:358-401 | for any two AT_LEAST_N rules, freezing one freezes the other if and only if a count of their cohorts holds |
| `Durability.LooseningFreezesProposal` | go/common/consensus/durability.go:208-244 | for a loosening AT_LEAST_N change that count compares the grown cohort with the count and the fewest recruits that pass |
| `Durability.GrowthByOneIsFrozen` | go/common/consensus/durability.go:208-244 | adding one node is frozen if and only if N is a strict majority of the grown cohort |
| `Durability.ReplacingAMemberIsFrozen` | go/common/consensus/durability.go:208-244 | removing one node and adding another is frozen at both steps if and only if N is a strict majority |
| `Durability.MultiCellGrowthFreezesProposal` | go/common/consensus/policy_multi_cell.go:32-44 | a grown MULTI_CELL cohort is frozen if and only if what it adds, with any one spare member, stays in one cell, or nothing can be recruited |
| `Durability.FrozenCount` | docs/ha/rule-change.md:106-126 | for AT_LEAST_N, recruits freeze a cohort, or freeze it and can finish a write, if and only if enough of them belong to it |
| `Durability.ScanMemberLoss` | go/common/consensus/cohort_safety.go:90-101 | the scan decides whether every single loss is survived |
| `Durability.NoLossIsSurvived` | go/common/consensus/cohort_safety.go:69-86 | with nobody lost every cohort but the empty one can be recruited |
| `Durability.CohortSafetyClosedForm` | go/common/consensus/cohort_safety.go:69-101 | a cohort survives any one loss if and only if no loss takes half of the distinct members or a set that satisfies the policy; when component keys tell nodes apart, if and only if it has three distinct members and none satisfies the policy alone |
| `Revocation.RevokedIsDownwardClosed` | go/common/consensus/revocation.go:252-272 | a promise that forbids a position forbids everything behind it |
| `Revocation.RevokedIsBelowTheRound` | go/common/consensus/revocation.go:252-272 | a promise forbids exactly the positions of earlier terms that compare behind the outgoing rule with a first proposal of the new term on it |
| `Revocation.SelfRevokedMeansEverythingKnownIsRevoked` | go/common/consensus/revocation.go:280-288 | a node is stranded if and only if its promise forbids every position it reports |
| `Revocation.StepKeepsPromise` | go/common/consensus/revocation.go:316-426 | an accepted revocation has at least the term and outgoing rule of the stored one, forbids at least as much, and at an equal term is the same round |
| `Revocation.PromisesNeverWeaken` | go/common/consensus/revocation.go:316-426 | the same over any two points of any history of a node |
| `Revocation.AcceptanceIsExact` | go/common/consensus/revocation.go:316-426 | a node accepts a revocation if and only if it is well authored, forbids the position of a node that can read its WAL and has caught up, and leaves the stored promise no weaker for any position |
| `Revocation.AcceptanceIsIdempotent` | go/common/consensus/revocation.go:403-423 | a node that stored a round it accepted accepts it again |
| `Revocation.EqualTermIsOneRound` | go/common/consensus/revocation.go:386-423 | at the stored term exactly the stored round is accepted, and not with an earlier outgoing rule |
| `Revocation.AcceptedRoundStaysAccepted` | go/services/multipooler/internal/manager/rpc_consensus.go:505-517 | along any history of a node, a round it accepted and can still be recruited for is accepted again, as Promote asks, if and only if its promise kept the term and the outgoing rule |
| `Revocation.RefusalsAreTruthful` | go/common/consensus/revocation.go:316-426 | every refusal names a condition that really fails |
| `Revocation.RoleIsExact` | go/common/consensus/pooler.go:59-76 | a node leads if and only if the rule of the foremost position it reports names it, and follows if and only if that rule lists it without naming it |
| `Revocation.ActiveLeaderIsExact` | go/common/consensus/pooler.go:86-101 | a node may take writes if and only if its own decision names it, what is undecided on it does too, its promise does not forbid its position, and every position it reports ahead of its own names it |
| `Revocation.RecruitedLeaderStaysInactive` | go/common/consensus/pooler.go:86-100 | a node that accepted a revocation is not an active leader until its position advances |
| `Revocation.HighestRevokedBelowTermRevocation` | go/common/consensus/revocation.go:173-194 | the selection loop computes the specified winner |
| `Revocation.HighestRevocationIsBest` | go/common/consensus/revocation.go:173-194 | the winner is a candidate with the highest term, among those the smallest coordinator key, and among those the latest start |
| `Revocation.HighestRevocationOrderIndependent` | go/common/consensus/revocation.go:173-194 | the winner's term, coordinator and start depend only on the set of candidates |
| `Revocation.AuthorRevocation` | go/common/consensus/revocation.go:52-129 | the survey loops compute the authored revocation, errors included |
| `Revocation.AuthoredFromSurvey` | go/common/consensus/revocation.go:52-129 | a revocation is authored if and only if there is a start and a reported position; it carries coordinator and start, leaves the rule, decided or not, of every most advanced position, and its term is above every surveyed promise and that rule, by one above one of them |
| `Revocation.MatchRevocations` | go/common/consensus/revocation.go:136-146 | the loop collects exactly the revocations some surveyed node holds that targeted the given decision |
| `Revocation.HighestDecidedRuleIsMaximum` | go/common/consensus/compare.go:268-276 | the decision to replace is the highest any surveyed node records |
| `Revocation.AttemptsAreCounted` | go/common/consensus/revocation.go:212-221 | the attempt is one more than that of the best prior attempt at the same decision, and one when there is none or it is older than the window |
| `Revocation.NewTermRevocationIsAccepted` | go/common/consensus/revocation.go:52-129 | an authored revocation outranks every surveyed term and the outgoing rule's term; a surveyed node that can be recruited accepts it if and only if it promised no later outgoing rule |
| `Proposals.CollectRecruits` | go/common/consensus/proposals.go:574-629 | filtering, deduplication and filtering again yield one usable status per node that accepted |
| `Proposals.DeduplicateStatuses` | go/common/consensus/proposals.go:617-629 | the loop keeps the most advanced status of every node |
| `Proposals.DeduplicateKeepsTheBest` | go/common/consensus/proposals.go:617-629 | one status per node, all nodes kept, none behind another status of its node |
| `Proposals.DeduplicateKeepsTheFirst` | go/common/consensus/proposals.go:617-631 | every status of the node listed before the one kept is strictly behind it |
| `Proposals.ScanOutgoingRulePosition` | go/common/consensus/proposals.go:365-392 | the loops compute the discovered position or report disagreement |
| `Proposals.DiscoverIsMaximum` | go/common/consensus/proposals.go:365-392 | the discovered position is recorded by a status and no status is ahead of it |
| `Proposals.RecordingIsExact` | go/common/consensus/proposals.go:365-392 | exactly the statuses at the discovered position are recorded as holding it |
| `Proposals.DiscoveryIsConsistent` | go/common/consensus/proposals.go:365-392 | discovery succeeds if and only if all statuses at the highest position agree on its content |
| `Proposals.NarrowByLsn` | go/common/consensus/proposals.go:405-439 | the loop computes the narrowed list |
| `Proposals.NarrowIsArgmax` | go/common/consensus/proposals.go:405-439 | exactly the statuses at the highest LSN not below the floor remain |
| `Proposals.PrepareEstablishes` | go/common/consensus/proposals.go:296-352 | what a prepared round knows: maximal position, matching outgoing rule, revoked, finalizable, eligible leaders |
| `Failover.RevokeFreezes` | go/common/consensus/outgoing_rule.go:103-188 | a round passes both stages if and only if it froze the decision and can finish the proposal |
| `Failover.LeaderIsMostAdvanced` | go/common/consensus/outgoing_rule.go:193-199 | no recruit is ahead of an eligible leader, which holds any certified LSN |
| `Failover.LeaderIsEligible` | go/common/consensus/outgoing_rule.go:193-199 | and every recruit that nobody is ahead of, and that holds any certified LSN, is eligible |
| `Failover.ValidationIsExact` | go/common/consensus/proposals.go:445-547 | validation passes if and only if the proposal belongs to the round, leaves the outgoing rule, can be made durable by the recruits and names an eligible leader; a certified one must be sufficiently recruited and may skip the outgoing quorum, and only a recruited one must keep an undecided rule |
| `Failover.SafeProposalIsExact` | go/common/consensus/proposals.go:158-168 | for any statuses, a proposal is built if and only if some recruit leads: nobody ahead, agreement at its position, the expected outgoing rule, frozen and finishable, and a proposal validation passes |
| `Failover.CertifiedProposalIsExact` | go/common/consensus/proposals.go:243-261 | the same for a certified round, with the cert in place of freezing |
| `Failover.RoundErrorsAreTruthful` | go/common/consensus/proposals.go:296-348 | a round that fails before validation says truly why: nobody joined, no usable position, disagreement, another outgoing rule, not frozen, or not finishable |
| `Failover.SafeRound` | go/common/consensus/proposals.go:158-168 | every proposal froze its outgoing rule and names a leader no recruit is ahead of |
| `Failover.ProposalKeepsItsWord` | go/common/consensus/proposals.go:445-547 | every proposal belongs to its round, outranks the rule it leaves, can be made durable by the recruits, and changes neither policy nor cohort of an undecided rule |
| `Failover.RoundSucceeds` | go/common/consensus/proposals.go:158-168 | completeness: when every node answers once, a proposal led by the most advanced of those that froze and can finish what it records is built |
| `Failover.CertifiedRoundSucceeds` | go/services/multiorch/consensus/rule_change_certified.go:88-107 | so is a certified one, whether or not it skips the outgoing quorum, once its cohort is sufficiently recruited and can make it durable |
| `Failover.PolicyInForceIsExact` | go/services/multipooler/internal/manager/consensus/rule_store.go:161-186 | there is a policy in force if and only if the rules parse and the change is supported; its quorums are those of the decision and, while a proposal is undecided, exactly the sets that are quorums of both rules |
| `Failover.NoDurableWriteLost` | go/common/consensus/proposals.go:296-439 | if every member of a quorum of the policy in force holds a write at the outgoing position, the named leader holds it |
| `Failover.TermExclusivity` | go/common/consensus/proposals.go:158-168 | two rounds of one term that both yield a proposal are one round, for equal decision cohorts and across an undecided rule change |
| `Failover.SharedRecruitFixesRound` | go/common/consensus/revocation.go:387-423 | a node recruited by two rounds of one term makes them the same round |
| `Failover.CertifiedRound` | go/common/consensus/proposals.go:243-258 | a certified proposal is of the round's term, its cohort is sufficiently recruited, and its leader is most advanced and holds the frozen LSN |
| `Failover.CertifiedExclusivity` | go/common/consensus/proposals.go:549-566 | two certified attempts at one term that propose the same cohort are one round |
| `Failover.StaleCertFails` | go/common/consensus/proposals.go:549-566 | every quorum of the proposed cohort contains a recruit that records nothing past the outgoing rule |
| `PreVote.PreVoteIsExact` | go/common/consensus/proposals.go:180-191 | the pre-vote passes if and only if a proposal can be built once every node that could accept has |
| `Completion.AuthoredRuleIsDiscovered` | go/common/consensus/outgoing_rule.go:58-101 | a round joined by a node at the top of the survey discovers the very rule the authored revocation leaves, and discovery fails only if recruits disagree on its content |
| `Completion.FailoverCompletes` | go/common/consensus/revocation.go:52-129 | from a survey of usable, agreeing nodes that freeze and can finish what the most advanced records, none of which promised a later outgoing rule: a revocation is authored, every node accepts it and accepts it again, and the round builds every admissible proposal of the most advanced node |
| `ProtocolInvariants.PrefixIsBehind` | go/common/consensus/compare.go:391-413 | a longer WAL compares at least as advanced and its last rule is at least as high |
| `ProtocolInvariants.EveryStateOk` | go/services/multipooler/internal/manager/consensus/rule_store.go:824-1069 | in every reachable state: logs are well formed and keep the initial rule, a leadership only finishes what was stuck and then writes its own term, every node's WAL is a prefix of a leadership's log |
| `ProtocolInvariants.PromoteEvidence` | go/services/multipooler/internal/manager/rpc_consensus.go:490-694 | a leadership rests on recruits that promised its round, are no further than its start, and froze the outgoing decision |
| `ProtocolInvariants.RunGrows` | go/services/multipooler/internal/manager/consensus/consensus_promises.go:171-187 | along a run WALs only advance, promises only strengthen, leaderships keep their round and start, logs only grow |
| `ProtocolHistory.WalShape` | docs/ha/consensus-overview.md:15-24 | a WAL is a prefix of what the owner of its last rule wrote, or the start of a later leadership plus the decision it finished |
| `ProtocolHistory.SameRuleSameHistory` | docs/ha/consensus-overview.md:15-24 | log matching: WALs that contain one rule number agree up to that rule, when leaderships have distinct terms |
| `ProtocolHistory.WriteQuorumIsExact` | go/services/multipooler/internal/manager/consensus/rule_store.go:161-186 | a WAL is made durable by exactly the quorums of the decision at its end that are, while a proposal is outstanding on it, quorums of that proposal too |
| `ProtocolHistory.RulesAreNumberedInOrder` | go/services/multipooler/internal/manager/consensus/rule_store.go:896-903 | the rules a leadership proposes are numbered one after another from its opening, in the order it proposed them |
| `ProtocolHistory.OwnDecisionAcked` | go/services/multipooler/internal/manager/consensus/rule_store.go:1045-1060 | a decision of a leadership's own term was acknowledged before it was written, by a quorum of the rule it replaces that is also a quorum of the rule it decides |
| `ProtocolHistory.AcknowledgedIsWritten` | go/services/multipooler/internal/manager/rpc_consensus.go:771-786 | what a node acknowledged to a leadership, the leadership had written before |
| `RuleFamilies.LeaderChangesAreCompatible` | go/common/consensus/outgoing_rule.go:115-136 | rules that differ only in their leader protect each other |
| `RuleFamilies.CompatibleIsCounting` | go/common/consensus/durability.go:358-401 | in AT_LEAST_N families every recruitment under one rule meets every quorum and recruitment under another if and only if two counts hold for every pair |
| `RuleFamilies.ShrinkingSplitsRecruitment` | go/common/consensus/durability.go:208-244 | a shrink under AT_LEAST_N is supported, and sets that freeze the old and the new rule always overlap if and only if the fewest that freeze either add up to more than the old cohort |
| `ProtocolSafety.PairOrdered` | go/common/consensus/revocation.go:387-423 | of two leaderships, the later term has no earlier outgoing rule, and the terms differ |
| `ProtocolSafety.OneTenurePerTerm` | docs/ha/rule-change.md:117-121 | no two leaderships of a run share a term, and the rule a leadership transitions from never goes back with the term |
| `ProtocolSafety.AnchorKept` | docs/ha/consensus-overview.md:22-28 | what a leadership decided of its own term is in the start of every later one |
| `ProtocolSafety.OldDecisionsAreKnown` | go/common/consensus/revocation.go:252-272 | a decision of an earlier term is never above the rule a later leadership transitions from |
| `ProtocolSafety.AcknowledgedBeforePromise` | go/services/multipooler/internal/manager/rpc_consensus.go:771-786 | what a recruit ever acknowledged of an earlier term, it held when it promised |
| `ProtocolSafety.Reaches` | go/common/consensus/outgoing_rule.go:115-136 | a later round's recruits include a node that acknowledged a durable history, unless the round has decided past it |
| `ProtocolSafety.Preservation` | docs/ha/consensus-overview.md:22-33 | every leadership of a later term starts from a WAL that contains all durable history of earlier terms, as cohort and policy change |
| `ProtocolSafety.NoSplitBrain` | docs/ha/consensus-overview.md:93-97 | any two durable histories of a run lie on one line |
| `ProtocolSafety.ReplicasHoldDurableHistory` | docs/ha/consensus-overview.md:22-33 | a replica that reached a later term holds every durable history of earlier terms |
| `ProtocolSafety.AcknowledgedWriteSurvives` | docs/ha/consensus-overview.md:22-33 | an acknowledged client write is at its place in the start of every later leadership |
| `RuleChanges.LeaderChangesAreOrderly` | docs/ha/consensus-overview.md:22-33 | runs that change only leaders satisfy the assumptions of the run theorems |
| `RuleChanges.CompatiblePairIsSafe` | go/common/consensus/outgoing_rule.go:115-136 | two configurations that protect each other are safe in every run that writes no other, whatever rounds propose |
| `RuleChanges.FrozenChangeIsSafe` | go/common/consensus/durability.go:208-244 | every run between two configurations whose loosening is frozen preserves durable history, with no assumption on rounds |
| `RuleChanges.UnfrozenChangeLosesAWrite` | go/common/consensus/durability.go:208-244 | otherwise some run, in which every round is confirmed and the leader that decided the change wrote nothing under it, loses a durable client write of its successor in a failover |
| `RuleChanges.LooseningIsSafeExactly` | go/services/multipooler/internal/manager/consensus/rule_store.go:1051-1056 | every run between the two configurations of a loosening change preserves durable history if and only if the change is frozen along with its decision, for both policies |
| `RuleChanges.LooseningIsACount` | docs/ha/rule-change.md:106-126 | for AT_LEAST_N every such run preserves durable history if and only if a count of nodes holds |
| `RuleChanges.AddingANodeIsSafeExactly` | go/common/consensus/durability.go:208-244 | adding a node under AT_LEAST_N is safe if and only if N is a strict majority of the grown cohort, whether or not rounds may propose other configurations that never get written |
| `ForkedRun.FrozenStepsAreNotEnough` | go/services/multipooler/internal/manager/consensus/rule_store.go:730-791 | for any tightening change whose change back is not frozen, a run of six leaderships in which every decided change is supported and frozen, only the two configurations are used, and two durable histories fork |
| `ForkedRun.TighteningIsSafeExactly` | go/common/consensus/durability.go:208-244 | every run between the two configurations of a tightening change that decides only frozen changes preserves durable history if and only if the change back would be frozen, for both policies |
| `ForkedRun.RemovingANodeIsSafeExactly` | go/common/consensus/durability.go:208-244 | for removing a node under AT_LEAST_N that means that N is a strict majority of the cohort |
| `ForkedRun.SupportedChangeIsSafeExactly` | go/common/consensus/durability.go:195-244 | for every supported change, all runs between its two configurations preserve durable history if and only if the change and the change back are frozen; the runs that decide only frozen changes need no less |
| `ProtocolExample.FailoverHappens` | go/common/consensus/proposals.go:158-168 | any three distinct AT_LEAST_2 nodes have a run with a durable client write and then a second leadership of another node |
| `KeyRange.NameOfParsed` | go/common/keyrange/keyrange.go:41-80 | printing an accepted name's range gives the name back, and the range is canonical |
| `KeyRange.ParseOfName` | go/common/keyrange/keyrange.go:41-80 | the name of a range is accepted if and only if the range is canonical, and parses to it |
| `KeyRange.NamesAreUnique` | go/common/keyrange/keyrange.go:71-80 | a canonical range shares its name with no other range |
| `KeyRange.BoundRoundTrip` | go/common/keyrange/keyrange.go:104-126 | bounds round-trip both ways, and only canonical bounds are accepted |
| `KeyRange.ByteOrderIsPointOrder` | go/common/keyrange/keyrange.go:63-65 | byte order is the order of zero-extended points, except that it separates a bound from its zero extensions |
| `KeyRange.CanonicalOrder` | go/common/keyrange/keyrange.go:63-65 | on canonical bounds the two orders agree and distinct bounds denote distinct points |
| `Consolidator.DedupKey` | go/common/preparedstatement/pooler_consolidator.go:75-89 | the loop builds the key |
| `Consolidator.DecodeKey` | go/common/preparedstatement/pooler_consolidator.go:75-89 | a key with parameter types can be read back |
| `Consolidator.KeysCollideExactly` | go/common/preparedstatement/pooler_consolidator.go:75-89 | two statements share a key if and only if they are equal or one is bare and spelled as the other's key |
| `Consolidator.ShadowingIsDetectable` | go/common/preparedstatement/pooler_consolidator.go:75-89 | a bare query can collide if and only if its text decodes as a key |
| `Consolidator.ShadowExists` | go/common/preparedstatement/pooler_consolidator.go:75-89 | such a text: the bare query `1:x5` has the key of the query `x` with parameter type 5 |
| `Consolidator.PoolerConsolidator.constructor` | go/common/preparedstatement/pooler_consolidator.go:47-51 | starts empty |
| `Consolidator.PoolerConsolidator.CanonicalName` | go/common/preparedstatement/pooler_consolidator.go:56-70 | one call is one step of the table, which stays consistent |
| `Consolidator.AssignKeeps` | go/common/preparedstatement/pooler_consolidator.go:56-70 | a call keeps every issued name, names the statement, and never gives two keys one name |
| `Consolidator.NamesCountKeys` | go/common/preparedstatement/pooler_consolidator.go:56-70 | a call whose key is new is named by the number of different keys prepared before it |
| `Consolidator.NamesNeverChange` | go/common/preparedstatement/pooler_consolidator.go:53-70 | a name, once issued, stays for the rest of the run |
| `Consolidator.NamesIdentifyStatements` | go/common/preparedstatement/pooler_consolidator.go:53-70 | over any run two calls get one name if and only if the statements are equal or one shadows the other; with parameter types, if and only if they are equal |
| `Consolidator.PlainStatementsAreIdentified` | go/common/preparedstatement/pooler_consolidator.go:53-70 | without bare queries that look encoded, names identify statements |
| `Consolidator.EncodedQueriesAreConfused` | go/common/preparedstatement/pooler_consolidator.go:53-70 | every bare query that looks encoded shares a name with another statement in some run |
| `Digits.HexDigitIsExact` | go/common/parser/lexer.go:399-411 | the sixteen digit characters and their values, letters in either case, and no others |
| `UnicodeEscape.ParseHexCodepoint` | go/common/parser/lexer.go:398-414 | the loop computes the value of a hex run |
| `UnicodeEscape.UescapeCharsAreExact` | go/common/parser/lexer.go:264-276 | which bytes may not be the escape character |
| `UnicodeEscape.DecodeUnicodeString` | go/common/parser/lexer.go:298-379 | the loop computes the specified result, with its error offsets |
| `UnicodeEscape.DecodeInvertsEscaping` | go/common/parser/lexer.go:298-379 | any mix of raw text, doubled escapes, both escape forms and surrogate pairs decodes to the UTF-8 of the scalars it writes |
| `UnicodeEscape.ScalarsCanBeEscaped` | go/common/parser/lexer.go:298-379 | every scalar but zero has an escape of six digits, and of four if it fits, for `DecodeInvertsEscaping` to invert |
| `UnicodeEscape.DecodeIsExplained` | go/common/parser/lexer.go:298-379 | the first unpaired surrogate is reported at its offset; otherwise the first malformed escape or value is; otherwise the tokens' bytes result |
| `UnicodeEscape.SurrogateErrorsAreExact` | go/common/parser/unicode.go:43-82 | a pair error arises if and only if a surrogate is unpaired; decoding succeeds if and only if the text is well formed and paired |
| `UnicodeEscape.PairRoundTrip` | go/common/parser/unicode.go:71-82 | combining inverts splitting into surrogates, both ways |
| `UnicodeEscape.Utf8RoundTrip` | go/common/parser/lexer.go:355-366 | the UTF-8 of a character reads back, whatever follows |
| `IntegerLiteral.ParseDecimalInteger` | go/common/parser/lexer.go:1618-1645 | the loop, with its overflow guard, computes the bounded scan and never exceeds 32 bits |
| `IntegerLiteral.ParseHexInteger` | go/common/parser/lexer.go:1648-1684 | likewise |
| `IntegerLiteral.ParseOctalInteger` | go/common/parser/lexer.go:1687-1714 | likewise |
| `IntegerLiteral.ParseBinaryInteger` | go/common/parser/lexer.go:1717-1746 | likewise |
| `IntegerLiteral.ScanIsExact` | go/common/parser/lexer.go:1618-1746 | on a well-formed numeral the scan yields its positional value, or overflow if that exceeds 32 bits |
| `IntegerLiteral.PrefixesAreExact` | go/common/parser/lexer.go:1575-1596 | the prefixes of each base, and that all other texts are decimal |
| `IntegerLiteral.ParseInteger32` | go/common/parser/lexer.go:1550-1615 | computes the specified result for every text, sign and base included |
| `IntegerLiteral.ParseIsExact` | go/common/parser/lexer.go:1550-1615 | a well-formed literal yields exactly the number it denotes if that fits 32 signed bits, and overflow otherwise |
| `IntegerLiteral.ProcessIntegerLiteral` | go/common/parser/lexer.go:1534-1545 | an unsigned literal becomes an integer token with its exact value if and only if that is at most 2147483647, and a float token otherwise |

## Left out

- ProtocolSafety.Preservation: assumes frozen changes on interlocked rules or confirmed configurations, or a family of rules that protect each other. For runs between the two configurations of a supported change the exact condition is proved (`ForkedRun.SupportedChangeIsSafeExactly`); for runs over three or more configurations the assumptions are sufficient and not shown to be necessary.
- ProtocolSafety.OneTenurePerTerm: the same assumptions.
- ProtocolSafety.PairOrdered: the same assumptions.
- ProtocolSafety.AnchorKept: the same assumptions.
- ProtocolSafety.OldDecisionsAreKnown: the same assumptions.
- ProtocolSafety.AcknowledgedBeforePromise: the same assumptions.
- ProtocolSafety.Reaches: the same assumptions.
- ProtocolSafety.ReplicasHoldDurableHistory: the same assumptions.
- ProtocolSafety.AcknowledgedWriteSurvives: the same assumptions.
- ProtocolSafety.NoSplitBrain: the same assumptions; durable history includes the leadership's own opening rule; deciding a rule left over from an earlier term does not by itself make it durable, and clients write only after the opening is decided.
- RuleFamilies.CompatibleIsCounting: is about sets of nodes; it says nothing about runs beyond what `ProtocolSafety.Preservation` derives from it, and covers AT_LEAST_N only.
- RuleFamilies.ShrinkingSplitsRecruitment: is about sets of nodes; `ForkedRun` has the runs.
- Durability.CohortSafetyClosedForm: the short form needs nodes with different cluster keys to have different component keys, which dashes inside cell or node names can break; the general form does not.
- Externally certified rounds are proved on their own and are not steps of a run. Their pre-vote, `CheckExternallyCertifiedProposalPossible`, runs the same pipeline as `CheckProposalPossible` on a certified basis and is not modelled.
- `IsCohortMemberRemovalSafe` asks whether a cohort without one member survives the loss of its leader, the question `cohortSurvivesMemberLoss` answers for a given list; `ReplicationPrimaryMatches` decides whether a SetPrimary call may be skipped; `MostAdvancedPosition` is the running maximum of `discoverOutgoingRulePosition` over cached statuses; the `Format*` helpers render text. None takes part in a round.
- pg_rewind, recruit floors during a rewind, crashes and timeouts in the middle of a write: a node's adoption of a WAL is one step.
- Liveness over runs: `Completion.FailoverCompletes` says when one round completes; nothing is said about retries, backoff or such a round eventually taking place.
- The mutex of the consolidator: each call is one step.
- The rest of the lexer and the grammar. Reading the UESCAPE clause is not modelled; which characters it may name is.
- `ValidateTableGroupAndShard` is a wrapper around `ParseShardName`.
