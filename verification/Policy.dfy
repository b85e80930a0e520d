/** Durability policies: when a set of nodes may make a write durable, and the
    synchronous-replication settings that enforce it. */
module Policy {
  import opened Types
  import opened Collections

  type Count = n: nat | n >= 1 witness 1

  datatype Policy = AtLeastN(n: Count) | MultiCell

  datatype PolicyError = NilPolicy | BadCount | UnsupportedQuorum

  function ParsePolicy(spec: Option<PolicySpec>): Result<Policy, PolicyError> {
    if spec.None? then Err(NilPolicy)
    else match spec.value.quorum
      case AtLeast => if spec.value.requiredCount < 1 then Err(BadCount) else Ok(AtLeastN(spec.value.requiredCount))
      case MultiCellAtLeast => if spec.value.requiredCount != 2 then Err(BadCount) else Ok(MultiCell)
      case Unknown => Err(UnsupportedQuorum)
  }

  /** Which specifications stand for which policy; all others are refused. */
  lemma ParsePolicyIsExact(spec: PolicySpec, p: Policy)
    ensures ParsePolicy(Some(spec)) == Ok(p) <==>
            match p
            case AtLeastN(n) => spec.quorum == AtLeast && spec.requiredCount == n
            case MultiCell => spec.quorum == MultiCellAtLeast && spec.requiredCount == 2
    ensures ParsePolicy(None).Err?
  {
  }

  /** What a policy demands of a set of node keys. */
  ghost predicate Satisfies(p: Policy, nodes: set<string>) {
    match p
    case AtLeastN(n) => |nodes| >= n
    case MultiCell => exists a, b :: a in nodes && b in nodes && CellOf(a) != CellOf(b)
  }

  /** More nodes never break a policy. */
  lemma SatisfiesMonotone(p: Policy, a: set<string>, b: set<string>)
    requires a <= b && Satisfies(p, a)
    ensures Satisfies(p, b)
  {
    SubsetCount(a, b);
  }

  // ---------------------------------------------------------------- normalization

  /** One entry per distinct key; the last one listed wins. */
  function ByKey(ids: seq<ID>): (m: map<string, ID>)
    ensures m.Keys == Keys(ids)
    ensures forall k :: k in m ==> ClusterKey(m[k]) == k && m[k] in ids
  {
    if ids == [] then map[]
    else
      var last := ids[|ids| - 1];
      assert ids == ids[..|ids| - 1] + [last];
      ByKey(ids[..|ids| - 1])[ClusterKey(last) := last]
  }

  /** The distinct nodes of a list, in key order. */
  function NormalizeIDs(ids: seq<ID>): (r: seq<ID>)
    ensures |r| == |Keys(ids)|
    ensures Keys(r) == Keys(ids)
    ensures forall id :: id in r ==> id in ids
  {
    ValuesKeepKeys(ByKey(ids));
    SortedValues(ByKey(ids))
  }

  lemma ValuesKeepKeys(m: map<string, ID>)
    requires forall k :: k in m ==> ClusterKey(m[k]) == k
    ensures Keys(SortedValues(m)) == m.Keys
  {
    hide ClusterKey, SortedValues;
    forall k | k in m ensures k in Keys(SortedValues(m)) { assert m[k] in SortedValues(m); }
  }

  /** The list is sorted by key, and each key keeps its last entry. */
  lemma NormalizeIsSorted(ids: seq<ID>)
    ensures var r := NormalizeIDs(ids);
            && (forall i, j :: 0 <= i < j < |r| ==>
                  LexLe(ClusterKey(r[i]), ClusterKey(r[j])) && ClusterKey(r[i]) != ClusterKey(r[j]))
            && forall i :: 0 <= i < |r| ==> exists last :: LastWithKey(ids, last, ClusterKey(r[i])) && ids[last] == r[i]
  {
    var ks, r := SortedKeys(Keys(ids)), NormalizeIDs(ids);
    hide ClusterKey, LexLe, NormalizeIDs, SortedKeys;
    forall i | 0 <= i < |r|
      ensures i < |ks| && ClusterKey(r[i]) == ks[i]
      ensures exists last :: LastWithKey(ids, last, ClusterKey(r[i])) && ids[last] == r[i]
    {
      NormalizedAt(ids, i);
      assert ks[i] in ks;
      var last := ByKeyKeepsLast(ids, ks[i]);
    }
  }

  lemma NormalizedAt(ids: seq<ID>, i: nat)
    requires i < |NormalizeIDs(ids)|
    ensures i < |SortedKeys(Keys(ids))| && SortedKeys(Keys(ids))[i] in ByKey(ids)
    ensures NormalizeIDs(ids)[i] == ByKey(ids)[SortedKeys(Keys(ids))[i]]
  {
    hide ClusterKey, ByKey, SortedKeys;
    assert SortedKeys(Keys(ids))[i] in SortedKeys(Keys(ids));
  }

  /** Where the last entry with a key is. */
  ghost predicate LastWithKey(ids: seq<ID>, i: int, k: string) {
    0 <= i < |ids| && ClusterKey(ids[i]) == k && forall j :: i < j < |ids| ==> ClusterKey(ids[j]) != k
  }

  lemma ByKeyStep(ids: seq<ID>)
    ensures ids == [] ==> ByKey(ids) == map[]
    ensures ids != [] ==>
              var last := ids[|ids| - 1]; ByKey(ids) == ByKey(ids[..|ids| - 1])[ClusterKey(last) := last]
  {
    hide ClusterKey, Keys;
  }

  lemma {:induction false} ByKeyKeepsLast(ids: seq<ID>, k: string) returns (i: int)
    requires k in ByKey(ids)
    ensures LastWithKey(ids, i, k) && ids[i] == ByKey(ids)[k]
  {
    hide ClusterKey, Keys, ByKey;
    var init, last := ids[..|ids| - 1], ids[|ids| - 1];
    ByKeyStep(ids);
    if ClusterKey(last) != k { i := ByKeyKeepsLast(init, k); } else { i := |ids| - 1; }
  }

  method Normalize(ids: seq<ID>) returns (r: seq<ID>)
    ensures r == NormalizeIDs(ids)
  {
    var byKey: map<string, ID> := map[];
    for i := 0 to |ids|
      invariant byKey == ByKey(ids[..i])
    {
      assert ids[..i + 1][..i] == ids[..i];
      byKey := byKey[ClusterKey(ids[i]) := ids[i]];
    }
    assert ids[..|ids|] == ids;
    r := SortedValues(byKey);
  }

  // ---------------------------------------------------------------- satisfaction

  function CellsOf(ids: seq<ID>): set<string> { set id | id in ids :: id.cell }

  predicate SatisfiedBy(p: Policy, ids: seq<ID>) {
    match p
    case AtLeastN(n) => |NormalizeIDs(ids)| >= n
    case MultiCell => |CellsOf(NormalizeIDs(ids))| >= 2
  }

  lemma CellsSpan(cells: set<string>)
    ensures |cells| >= 2 <==> exists a, b :: a in cells && b in cells && a != b
  {
    if |cells| >= 2 {
      var a :| a in cells;
      assert |cells - {a}| == |cells| - 1;
      var b :| b in cells - {a};
    } else if exists a, b :: a in cells && b in cells && a != b {
      var a, b :| a in cells && b in cells && a != b;
      SubsetCount({a, b}, cells);
    }
  }

  lemma SpannedCells(ids: seq<ID>)
    ensures Satisfies(MultiCell, Keys(ids)) <==>
            exists a, b :: a in CellsOf(ids) && b in CellsOf(ids) && a != b
  {
    forall id | id in ids ensures CellOf(ClusterKey(id)) == id.cell { CellOfClusterKey(id); }
    if Satisfies(MultiCell, Keys(ids)) {
      var x, y :| x in Keys(ids) && y in Keys(ids) && CellOf(x) != CellOf(y);
      assert CellOf(x) in CellsOf(ids) && CellOf(y) in CellsOf(ids);
    }
  }

  /** The list check, duplicates and all, decides the policy on the set of distinct nodes. */
  lemma SatisfiedByMeaning(p: Policy, ids: seq<ID>)
    ensures SatisfiedBy(p, ids) <==> Satisfies(p, Keys(ids))
  {
    if p.MultiCell? {
      CellsSpan(CellsOf(NormalizeIDs(ids)));
      SpannedCells(NormalizeIDs(ids));
    }
  }

  // ---------------------------------------------------------------- synchronous replication

  /** `local` commits without waiting; otherwise any `numSync` of `standbys` must acknowledge. */
  datatype SyncConfig = SyncConfig(local: bool, numSync: nat, standbys: seq<ID>)

  datatype SyncError = PrimaryNotInCohort | TooFewStandbys

  /** The cohort members outside a cell, in cohort order. */
  function OtherCells(cohort: seq<ID>, cell: string): (r: seq<ID>)
    ensures forall s :: s in r <==> s in cohort && s.cell != cell
  {
    if cohort == [] then []
    else
      var last := cohort[|cohort| - 1];
      assert cohort == cohort[..|cohort| - 1] + [last];
      OtherCells(cohort[..|cohort| - 1], cell) + (if last.cell != cell then [last] else [])
  }

  method EligibleStandbys(cohort: seq<ID>, cell: string) returns (eligible: seq<ID>)
    ensures eligible == OtherCells(cohort, cell)
  {
    eligible := [];
    for i := 0 to |cohort|
      invariant eligible == OtherCells(cohort[..i], cell)
    {
      assert cohort[..i + 1][..i] == cohort[..i];
      if cohort[i].cell != cell {
        eligible := eligible + [cohort[i]];
      }
    }
    assert cohort[..|cohort|] == cohort;
  }

  function BuildSyncConfig(p: Policy, cohort: seq<ID>, primary: Option<ID>): Result<SyncConfig, SyncError> {
    if primary.None? || KeyOf(primary) !in Keys(cohort) then Err(PrimaryNotInCohort)
    else match p
      case AtLeastN(n) =>
        if n == 1 then Ok(SyncConfig(true, 1, []))
        else if n - 1 > |NormalizeIDs(cohort)| - 1 then Err(TooFewStandbys)
        else Ok(SyncConfig(false, n - 1, cohort))
      case MultiCell =>
        var eligible := OtherCells(cohort, primary.value.cell);
        if eligible == [] then Err(TooFewStandbys) else Ok(SyncConfig(false, 1, eligible))
  }

  /** What the primary waits for: it ignores its own entry in the standby list. */
  ghost predicate Acknowledged(c: SyncConfig, primary: string, acks: set<string>) {
    c.local || |(acks - {primary}) * Keys(c.standbys)| >= c.numSync
  }

  lemma OtherCellKeys(cohort: seq<ID>, cell: string)
    ensures Keys(OtherCells(cohort, cell)) == set k | k in Keys(cohort) && CellOf(k) != cell
  {
    forall id | id in cohort ensures CellOf(ClusterKey(id)) == id.cell { CellOfClusterKey(id); }
  }

  lemma CrossCellAck(primary: string, acks: set<string>, members: set<string>, outside: set<string>)
    requires acks <= members && outside == set k | k in members && CellOf(k) != CellOf(primary)
    ensures (acks - {primary}) * outside != {} <==> Satisfies(MultiCell, acks + {primary})
  {
    if (acks - {primary}) * outside != {} {
      var x :| x in (acks - {primary}) * outside;
      assert x in acks + {primary} && primary in acks + {primary} && CellOf(x) != CellOf(primary);
    }
    if Satisfies(MultiCell, acks + {primary}) {
      var a, b :| a in acks + {primary} && b in acks + {primary} && CellOf(a) != CellOf(b);
      var x := if CellOf(a) != CellOf(primary) then a else b;
      assert x in (acks - {primary}) * outside;
    }
  }

  lemma DifferentCellStandbys(cohort: seq<ID>, primary: ID, acks: set<string>)
    requires acks <= Keys(cohort)
    ensures (acks - {ClusterKey(primary)}) * Keys(OtherCells(cohort, primary.cell)) != {} <==>
            Satisfies(MultiCell, acks + {ClusterKey(primary)})
  {
    CellOfClusterKey(primary);
    OtherCellKeys(cohort, primary.cell);
    CrossCellAck(ClusterKey(primary), acks, Keys(cohort), Keys(OtherCells(cohort, primary.cell)));
  }

  /** The settings are exact: a write the primary sees acknowledged is durable, and nothing less is. */
  lemma SyncConfigIsExact(p: Policy, cohort: seq<ID>, primary: ID, acks: set<string>)
    requires acks <= Keys(cohort)
    ensures var config := BuildSyncConfig(p, cohort, Some(primary));
            config.Ok? ==>
              (Acknowledged(config.value, ClusterKey(primary), acks) <==> Satisfies(p, acks + {ClusterKey(primary)}))
  {
    hide Keys, ClusterKey, CellOf, OtherCells, NormalizeIDs;
    var pk := ClusterKey(primary);
    var others := acks - {pk};
    match p
    case AtLeastN(n) =>
      assert acks + {pk} == others + {pk};
      assert |others + {pk}| == |others| + 1;
      assert others * Keys(cohort) == others;
    case MultiCell =>
      hide Satisfies;
      DifferentCellStandbys(cohort, primary, acks);
      var reached := others * Keys(OtherCells(cohort, primary.cell));
      assert |reached| >= 1 <==> reached != {};
  }

  lemma OtherCellsReachable(cohort: seq<ID>, primary: ID)
    requires ClusterKey(primary) in Keys(cohort)
    ensures OtherCells(cohort, primary.cell) != [] <==> Satisfies(MultiCell, Keys(cohort))
  {
    hide Satisfies, CellOf, ClusterKey, OtherCells;
    var pk, eligible := ClusterKey(primary), OtherCells(cohort, primary.cell);
    DifferentCellStandbys(cohort, primary, Keys(cohort));
    assert Keys(cohort) + {pk} == Keys(cohort);
    if eligible != [] {
      CellOfClusterKey(eligible[0]);
      CellOfClusterKey(primary);
      assert eligible[0] in eligible && ClusterKey(eligible[0]) in (Keys(cohort) - {pk}) * Keys(eligible);
    }
  }

  /** Settings exist exactly when the primary belongs to a cohort that can satisfy the policy at all. */
  lemma SyncConfigExists(p: Policy, cohort: seq<ID>, primary: Option<ID>)
    ensures BuildSyncConfig(p, cohort, primary).Ok? <==>
            primary.Some? && ClusterKey(primary.value) in Keys(cohort) && Satisfies(p, Keys(cohort))
  {
    if primary.Some? && ClusterKey(primary.value) in Keys(cohort) {
      match p
      case AtLeastN(n) => SubsetCount({ClusterKey(primary.value)}, Keys(cohort));
      case MultiCell =>
        hide Keys, ClusterKey, OtherCells, Satisfies;
        OtherCellsReachable(cohort, primary.value);
    }
  }

  /** The settings can be met and are no idle wait: they are local exactly when the primary alone satisfies the policy,
      and otherwise ask for at least one acknowledgement and for no more than there are other standbys listed. */
  lemma SyncConfigIsWellFormed(p: Policy, cohort: seq<ID>, primary: ID)
    requires BuildSyncConfig(p, cohort, Some(primary)).Ok?
    ensures var config := BuildSyncConfig(p, cohort, Some(primary)).value;
            && (config.local <==> Satisfies(p, {ClusterKey(primary)}))
            && (!config.local ==> 1 <= config.numSync <= |Keys(config.standbys) - {ClusterKey(primary)}|)
            && Keys(config.standbys) <= Keys(cohort)
  {
    hide Keys, ClusterKey, CellOf, OtherCells, NormalizeIDs;
    NoKeys();
    match p
    case AtLeastN(n) =>
      CountedStandbys(cohort, primary);
      assert |{ClusterKey(primary)}| == 1;
    case MultiCell => OtherCellStandbys(cohort, primary);
  }

  lemma NoKeys()
    ensures Keys([]) == {}
  {
  }

  lemma CountedStandbys(cohort: seq<ID>, primary: ID)
    requires ClusterKey(primary) in Keys(cohort)
    ensures |Keys(cohort) - {ClusterKey(primary)}| == |NormalizeIDs(cohort)| - 1
  {
    hide Keys, ClusterKey;
    var pk := ClusterKey(primary);
    assert Keys(cohort) == Keys(cohort) - {pk} + {pk};
  }

  lemma OtherCellStandbys(cohort: seq<ID>, primary: ID)
    ensures OtherCells(cohort, primary.cell) != [] ==>
              |Keys(OtherCells(cohort, primary.cell)) - {ClusterKey(primary)}| >= 1
    ensures Keys(OtherCells(cohort, primary.cell)) <= Keys(cohort)
  {
    var eligible, pk := OtherCells(cohort, primary.cell), ClusterKey(primary);
    OtherCellKeys(cohort, primary.cell);
    CellOfClusterKey(primary);
    if eligible != [] {
      assert eligible[0] in eligible;
      assert ClusterKey(eligible[0]) in Keys(eligible);
      CellOfClusterKey(eligible[0]);
      hide Keys, ClusterKey, CellOf, OtherCells;
      assert ClusterKey(eligible[0]) in Keys(eligible) - {pk};
    }
  }

  /** Standbys are listed in cohort order. */
  lemma {:induction false} OtherCellsKeepOrder(a: seq<ID>, b: seq<ID>, cell: string)
    ensures OtherCells(a + b, cell) == OtherCells(a, cell) + OtherCells(b, cell)
    decreases |b|
  {
    hide OtherCells;
    if b == [] {
      assert a + b == a && OtherCells(b, cell) == [] by { NoOtherCells(cell); }
    } else {
      var init, last := b[..|b| - 1], b[|b| - 1];
      OtherCellsKeepOrder(a, init, cell);
      OtherCellsStep(a + init, last, cell);
      OtherCellsStep(init, last, cell);
      assert a + b == a + init + [last] && b == init + [last];
    }
  }

  lemma NoOtherCells(cell: string)
    ensures OtherCells([], cell) == []
  {
  }

  lemma OtherCellsStep(init: seq<ID>, last: ID, cell: string)
    ensures OtherCells(init + [last], cell) == OtherCells(init, cell) + if last.cell != cell then [last] else []
  {
    assert (init + [last])[..|init|] == init;
  }
}
