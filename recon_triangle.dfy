/**
 * RECON's triangle test: a stored pair of matching models closes a triangle with a new
 * model when both match it and the three common sets agree closely enough.
 */
module ReconTriangle {
  import opened Common
  import opened AlphaConsistency
  import opened Residuals
  import opened ReconModels

  /** The larger of two counts. */
  function Max(a: nat, b: nat): nat
  {
    if a >= b then a else b
  }

  /** The smaller of two counts. */
  function MinOf(a: nat, b: nat): nat
  {
    if a <= b then a else b
  }

  /**
   * The acceptance test of a triangle of models, on the sizes of the three pairwise common
   * sets and of their intersection: the smallest common set is within 5% of the largest,
   * and the intersection holds at least 2% of the data. Both ratios are compared
   * cross-multiplied. With every common set empty the source divides zero by zero, and a
   * NaN never passes the test.
   */
  predicate TriangleAccepts(common1: nat, common2: nat, commonPair: nat, commonAll: nat, dataSize: nat)
  {
    var maxCommonCount := Max(Max(common1, common2), commonPair);
    var minCommonCount := MinOf(MinOf(common1, common2), commonPair);
    && maxCommonCount > 0
    && 20 * (maxCommonCount - minCommonCount) <= maxCommonCount
    && 50 * commonAll >= dataSize
  }

  /**
   * What the test promises: it passes exactly when every common set is non-empty and at
   * least 95% the size of each other one, and the intersection is at least 2% of the data.
   */
  lemma TriangleAcceptsMeans(common1: nat, common2: nat, commonPair: nat, commonAll: nat, dataSize: nat)
    ensures TriangleAccepts(common1, common2, commonPair, commonAll, dataSize) <==>
              && 0 < common1 && 0 < common2 && 0 < commonPair
              && 20 * common1 >= 19 * common2 && 20 * common2 >= 19 * common1
              && 20 * common1 >= 19 * commonPair && 20 * commonPair >= 19 * common1
              && 20 * common2 >= 19 * commonPair && 20 * commonPair >= 19 * common2
              && 50 * commonAll >= dataSize
  {
  }

  /**
   * The verdict on stored pair `p` for the new model: it closes a triangle when both of its
   * models match the new one and the test accepts the three common sets. The result is
   * then the data common to all three.
   */
  function Closes<M>(p: MatchingModelPair<M>, matching: seq<Match<M>>, dataSize: nat): Option<set<nat>>
  {
    match (Lookup(matching, p.model1.minimalSampleSet), Lookup(matching, p.model2.minimalSampleSet))
    case (Some(commonBetweenNewAnd1), Some(commonBetweenNewAnd2)) =>
      var commonBetweenAllThree := p.commonData * commonBetweenNewAnd1 * commonBetweenNewAnd2;
      if TriangleAccepts(|commonBetweenNewAnd1|, |commonBetweenNewAnd2|, |p.commonData|,
                         |commonBetweenAllThree|, dataSize)
      then Some(commonBetweenAllThree)
      else None
    case _ => None
  }

  /** A closing pair: both its models match the new one, and the test accepts the three common sets. */
  lemma ClosesParts<M>(p: MatchingModelPair<M>, matching: seq<Match<M>>, dataSize: nat, all: set<nat>)
    requires Closes(p, matching, dataSize) == Some(all)
    ensures Lookup(matching, p.model1.minimalSampleSet).Some?
    ensures Lookup(matching, p.model2.minimalSampleSet).Some?
    ensures var common1, common2 := Lookup(matching, p.model1.minimalSampleSet).value,
                                    Lookup(matching, p.model2.minimalSampleSet).value;
            && all == p.commonData * common1 * common2
            && TriangleAccepts(|common1|, |common2|, |p.commonData|, |all|, dataSize)
  {
  }

  /** No pair of `pairs` closes a triangle with the model whose match map is `matching`. */
  predicate Unclosed<M>(pairs: seq<MatchingModelPair<M>>, matching: seq<Match<M>>, dataSize: nat)
  {
    forall k :: 0 <= k < |pairs| ==> Closes(pairs[k], matching, dataSize).None?
  }

  /** Pair `at` is the first of `pairs` to close a triangle, and `inliers` is its common data. */
  predicate FirstCloses<M>(pairs: seq<MatchingModelPair<M>>, matching: seq<Match<M>>, dataSize: nat,
                           at: nat, inliers: set<nat>)
  {
    && at < |pairs|
    && Closes(pairs[at], matching, dataSize) == Some(inliers)
    && forall k :: 0 <= k < at ==> Closes(pairs[k], matching, dataSize).None?
  }

  /** A model with an empty match map closes no triangle. */
  lemma NoMatchCloses<M>(pairs: seq<MatchingModelPair<M>>, dataSize: nat)
    ensures Unclosed(pairs, [], dataSize)
  {
  }

  /**
   * The loop over the stored pairs: the first pair that closes a triangle with the new
   * model, or none.
   */
  method FindTriangle<M>(pairs: seq<MatchingModelPair<M>>, matching: seq<Match<M>>, dataSize: nat)
    returns (found: bool, commonBetweenAllThree: set<nat>, at: nat)
    ensures found ==> FirstCloses(pairs, matching, dataSize, at, commonBetweenAllThree)
    ensures !found ==> Unclosed(pairs, matching, dataSize)
  {
    found, commonBetweenAllThree, at := false, {}, 0;
    var i := 0;
    while i < |pairs|
      invariant i <= |pairs|
      invariant forall k :: 0 <= k < i ==> Closes(pairs[k], matching, dataSize).None?
    {
      var existingPair := pairs[i];
      var common1 := Lookup(matching, existingPair.model1.minimalSampleSet);
      var common2 := Lookup(matching, existingPair.model2.minimalSampleSet);
      if common1.Some? && common2.Some? {
        var all := existingPair.commonData * common1.value * common2.value;
        if TriangleAccepts(|common1.value|, |common2.value|, |existingPair.commonData|, |all|, dataSize) {
          return true, all, i;
        }
      }
      i := i + 1;
    }
  }

  /**
   * As each model of `stored` was stored, no pair formed before it closed a triangle with
   * it.
   */
  predicate NoneClosed<M>(stored: seq<ModelData<M>>, n: nat)
    requires Sized(stored, n)
  {
    stored == [] ||
    var init, last := stored[..|stored| - 1], stored[|stored| - 1];
    assert SameSize(last, init) by {
      assert forall i :: 0 <= i < |init| ==> init[i] == stored[i];
    }
    NoneClosed(init, n) && Unclosed(PairsOf(init, n), Matches(last, init), n)
  }

  /** Storing one more model keeps `NoneClosed` exactly when no earlier pair closed with it. */
  lemma NoneClosedAppend<M>(stored: seq<ModelData<M>>, newMd: ModelData<M>, n: nat)
    requires Sized(stored, n) && |newMd.residuals| == n
    ensures Sized(stored + [newMd], n) && SameSize(newMd, stored)
    ensures NoneClosed(stored + [newMd], n) <==>
              NoneClosed(stored, n) && Unclosed(PairsOf(stored, n), Matches(newMd, stored), n)
  {
    PairsOfAppend(stored, newMd, n);
    assert (stored + [newMd])[..|stored|] == stored;
  }

  /**
   * Three models from different minimal samples that are pairwise alpha-consistent, the
   * newest compared with the two others and `first` with `second`, whose common sets pass
   * the acceptance test; `inliers` is the data common to all three.
   */
  predicate Triangle<M>(n: nat, newest: ModelData<M>, first: ModelData<M>, second: ModelData<M>, inliers: set<nat>)
  {
    && Ranked(newest, n) && Ranked(first, n) && Ranked(second, n)
    && newest.minimalSampleSet != first.minimalSampleSet
    && newest.minimalSampleSet != second.minimalSampleSet
    && first.minimalSampleSet != second.minimalSampleSet
    && Verdict(first, second).Some? && Verdict(newest, first).Some? && Verdict(newest, second).Some?
    && var commonPair, common1, common2 := Verdict(first, second).value, Verdict(newest, first).value, Verdict(newest, second).value;
       && inliers == commonPair * common1 * common2
       && inliers <= Range(n)
       && TriangleAccepts(|common1|, |common2|, |commonPair|, |inliers|, n)
  }

  /**
   * A stored pair that closes a triangle with the new model gives three distinct, pairwise
   * consistent models whose common sets pass the test, and whose common data are valid
   * indices.
   */
  lemma ClosingTriangle<M>(n: nat, stored: seq<ModelData<M>>,
                           newMd: ModelData<M>, p: MatchingModelPair<M>, all: set<nat>)
    requires DistinctKeys(stored) && forall i :: 0 <= i < |stored| ==> Ranked(stored[i], n)
    requires PairOk(stored, p)
    requires Ranked(newMd, n) && !IsStored(stored, newMd.minimalSampleSet)
    requires SameSize(newMd, stored)
    requires Closes(p, Matches(newMd, stored), n) == Some(all)
    ensures Triangle(n, newMd, p.model1, p.model2, all)
  {
    var matching := Matches(newMd, stored);
    ClosesParts(p, matching, n, all);
    LookupMatches(newMd, stored);
    var i1 :| 0 <= i1 < |stored| && stored[i1] == p.model1;
    var i2 :| 0 <= i2 < |stored| && stored[i2] == p.model2;
    assert Ranked(p.model1, n) && Ranked(p.model2, n);
    assert Lookup(matching, p.model1.minimalSampleSet) == Verdict(newMd, p.model1);
    assert Lookup(matching, p.model2.minimalSampleSet) == Verdict(newMd, p.model2);
    var common1 := Verdict(newMd, p.model1).value;
    ConsistencyWithin(Ranking(newMd.residuals), Ranking(p.model1.residuals));
    assert all <= common1 <= Range(n);
  }
}
