/** When the rules of a run protect each other: any recruitment under one meets every quorum and every
    recruitment under another. */
module RuleFamilies {
  import opened Types
  import opened Policy
  import opened Durability

  /** Every recruitment that freezes `a` sees every quorum, and every recruitment, of `b`. */
  ghost predicate PairMeets(a: PolicyWithCohort, b: PolicyWithCohort) {
    && (forall r, q :: Frozen(a, r) && Quorum(b, q) ==> Meet(r, q))
    && (forall r, r' :: Frozen(a, r) && Frozen(b, r') ==> Meet(r, r'))
  }

  ghost predicate Compatible(family: set<PolicyWithCohort>) {
    forall a, b :: a in family && b in family ==> PairMeets(a, b)
  }

  /** Rules that differ only in who leads are compatible, whatever the policy. */
  lemma LeaderChangesAreCompatible(family: set<PolicyWithCohort>)
    requires forall a, b :: a in family && b in family ==> a.policy == b.policy && Keys(a.cohort) == Keys(b.cohort)
    ensures Compatible(family)
  {
    hide Keys, Satisfies;
    forall a, b | a in family && b in family ensures PairMeets(a, b) {
      var cohort := Keys(a.cohort);
      forall r, q | Frozen(a, r) && Quorum(b, q) ensures Meet(r, q) {
        RecruitmentMeetsQuorum(a, r * cohort, q);
        var k :| k in r * cohort && k in q;
      }
      forall r, r' | Frozen(a, r) && Frozen(b, r') ensures Meet(r, r') {
        RecruitmentsMeet(a.policy, b.policy, cohort, r * cohort, r' * cohort);
        var k :| k in r * cohort && k in r' * cohort;
      }
    }
  }

  // ---------------------------------------------------------------- counting

  /** The two counts a pair of AT_LEAST_N rules must pass. */
  predicate Protects(a: PolicyWithCohort, b: PolicyWithCohort)
    requires a.policy.AtLeastN? && b.policy.AtLeastN?
  {
    var ka, kb := Keys(a.cohort), Keys(b.cohort);
    var freeze := FreezeCount(|ka|, a.policy.n);
    MustMeet(ka, kb, freeze, b.policy.n) && MustMeet(ka, kb, freeze, FreezeCount(|kb|, b.policy.n))
  }

  lemma ProtectedPairMeets(a: PolicyWithCohort, b: PolicyWithCohort)
    requires a.policy.AtLeastN? && b.policy.AtLeastN? && Protects(a, b)
    ensures PairMeets(a, b)
  {
    hide Keys, FreezeCount, Frozen, MustMeet, Meet;
    var ka, kb := Keys(a.cohort), Keys(b.cohort);
    var freeze := FreezeCount(|ka|, a.policy.n);
    forall r, q | Frozen(a, r) && Quorum(b, q) ensures Meet(r, q) {
      FrozenCount(a, r);
      assert q * kb == q;
      CountedSetsMeet(ka, kb, freeze, b.policy.n, r, q);
    }
    forall r, r' | Frozen(a, r) && Frozen(b, r') ensures Meet(r, r') {
      FrozenCount(a, r);
      FrozenCount(b, r');
      CountedSetsMeet(ka, kb, freeze, FreezeCount(|kb|, b.policy.n), r, r');
    }
  }

  lemma UnprotectedPairSplits(a: PolicyWithCohort, b: PolicyWithCohort)
    requires a.policy.AtLeastN? && b.policy.AtLeastN? && !Protects(a, b)
    ensures !PairMeets(a, b)
  {
    hide Keys, FreezeCount, Frozen, MustMeet;
    var ka, kb := Keys(a.cohort), Keys(b.cohort);
    var freeze, freeze' := FreezeCount(|ka|, a.policy.n), FreezeCount(|kb|, b.policy.n);
    if !MustMeet(ka, kb, freeze, b.policy.n) {
      var r, q := AvoidingSets(ka, kb, freeze, b.policy.n);
      assert r * ka == r;
      FrozenCount(a, r);
      assert Quorum(b, q);
    } else {
      var r, r' := AvoidingSets(ka, kb, freeze, freeze');
      assert r * ka == r && r' * kb == r';
      FrozenCount(a, r);
      FrozenCount(b, r');
    }
  }

  /** For AT_LEAST_N rules compatibility is exactly a matter of counting, pair by pair. */
  lemma CompatibleIsCounting(family: set<PolicyWithCohort>)
    requires forall a :: a in family ==> a.policy.AtLeastN?
    ensures Compatible(family) <==> forall a, b :: a in family && b in family ==> Protects(a, b)
  {
    hide Protects, PairMeets;
    forall a, b | a in family && b in family ensures Protects(a, b) <==> PairMeets(a, b) {
      if Protects(a, b) { ProtectedPairMeets(a, b); } else { UnprotectedPairSplits(a, b); }
    }
  }

  /** A shrink under AT_LEAST_N is a supported transition, and recruitments before and after it are sure to overlap
      only if the fewest that freeze either rule add up to more than the old cohort. Five nodes that need three,
      shrunk to three, fail this. */
  lemma ShrinkingSplitsRecruitment(before: PolicyWithCohort, after: PolicyWithCohort)
    requires before.policy.AtLeastN? && before.policy == after.policy && DuplicateFree(before) && DuplicateFree(after)
    requires Keys(after.cohort) <= Keys(before.cohort)
    ensures BuildPolicyTransition(before, after).Ok?
    ensures (forall r, r' :: Frozen(before, r) && Frozen(after, r') ==> Meet(r, r')) <==>
              var n := before.policy.n;
              after.cohort == []
              || FreezeCount(|before.cohort|, n) + FreezeCount(|after.cohort|, n) > |before.cohort|
  {
    SubsetMeaning(after.cohort, before.cohort);
    hide Keys, Frozen, Meet, CohortIsSubsetOf;
    var ka, kb, n := Keys(before.cohort), Keys(after.cohort), before.policy.n;
    assert |ka| == |kb| + |ka - kb| by { assert ka == kb + (ka - kb); }
    var freeze, freeze' := FreezeCount(|ka|, n), FreezeCount(|kb|, n);
    if MustMeet(ka, kb, freeze, freeze') {
      forall r, r' | Frozen(before, r) && Frozen(after, r') ensures Meet(r, r') {
        FrozenCount(before, r);
        FrozenCount(after, r');
        CountedSetsMeet(ka, kb, freeze, freeze', r, r');
      }
    } else {
      var r, r' := AvoidingSets(ka, kb, freeze, freeze');
      assert r * ka == r && r' * kb == r';
      FrozenCount(before, r);
      FrozenCount(after, r');
    }
  }
}
