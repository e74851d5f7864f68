/**
 * RECON's store of models and the comparison of a new model with the stored ones: the
 * model data kept per tried minimal sample, the map of matching previous models, and the
 * list of matching model pairs.
 */
module ReconModels {
  import opened Common
  import opened Residuals
  import opened AlphaConsistency
  import opened RobustEstimator

  /**
   * `md` is the model data of a minimal sample: some `m` distinct data indices with mask
   * `md.minimalSampleSet` from which the fitter computed `md.model`, and the model's
   * residuals over the whole data, sorted.
   */
  ghost predicate WellFormed<D, M>(fitter: Fitter<D, M>, data: seq<D>, md: ModelData<M>)
  {
    && ResidualsOf(fitter, data, md.model, md.residuals)
    && ByErrorThenIndex(md.residuals)
    && exists order: seq<nat> ::
         && |order| == fitter.minimalDataSetSize && Distinct(order) && AllBelow(order, |data|)
         && SetOf(order) == md.minimalSampleSet
         && fitter.computeModel(Elements(data, order)) == Some(md.model)
  }

  /** A model's ranking lists each of the `n` data elements once. */
  predicate Ranked<M>(md: ModelData<M>, n: nat)
  {
    |md.residuals| == n && Distinct(Ranking(md.residuals)) && SetOf(Ranking(md.residuals)) == Range(n)
  }

  /** Well-formed model data ranks the data elements. */
  lemma WellFormedIsRanked<D, M>(fitter: Fitter<D, M>, data: seq<D>, md: ModelData<M>)
    requires WellFormed(fitter, data, md)
    ensures Ranked(md, |data|)
  {
    RankingIsPermutation(fitter, data, md.model, md.residuals);
  }

  /** Every model in `stored` is well formed, stated one model at a time from the back. */
  ghost predicate AllWellFormed<D, M>(fitter: Fitter<D, M>, data: seq<D>, stored: seq<ModelData<M>>)
  {
    stored == [] ||
    (AllWellFormed(fitter, data, stored[..|stored| - 1]) && WellFormed(fitter, data, stored[|stored| - 1]))
  }

  /** `AllWellFormed` says that each model of the store is well formed. */
  lemma {:induction false} AllWellFormedAt<D, M>(fitter: Fitter<D, M>, data: seq<D>, stored: seq<ModelData<M>>, i: nat)
    requires AllWellFormed(fitter, data, stored) && i < |stored|
    ensures WellFormed(fitter, data, stored[i])
  {
    if i < |stored| - 1 {
      AllWellFormedAt(fitter, data, stored[..|stored| - 1], i);
    }
  }

  /** `checkAlphaConsistency(newer, older)`'s verdict: the common set, if the pair is consistent. */
  function Verdict<M>(newer: ModelData<M>, older: ModelData<M>): Option<set<nat>>
    requires |newer.residuals| == |older.residuals|
  {
    Consistency(Ranking(newer.residuals), Ranking(older.residuals))
  }

  /** `storedModelData.containsKey(mask)`. */
  predicate IsStored<M>(stored: seq<ModelData<M>>, mask: set<nat>)
  {
    exists i :: 0 <= i < |stored| && stored[i].minimalSampleSet == mask
  }

  /** No two stored models share a minimal sample set (the store's keys). */
  predicate DistinctKeys<M>(stored: seq<ModelData<M>>)
  {
    forall i, j :: 0 <= i < j < |stored| ==> stored[i].minimalSampleSet != stored[j].minimalSampleSet
  }

  /** An entry of `matchingPreviousModels`: a stored model consistent with the new one. */
  datatype Match<M> = Match(existing: ModelData<M>, common: set<nat>)

  /** Two stored models found consistent, `model1` the later, and their common set. */
  datatype MatchingModelPair<M> = MatchingModelPair(model1: ModelData<M>, model2: ModelData<M>, commonData: set<nat>)

  /** Every model in `stored` has residuals over as many elements as `md`. */
  predicate SameSize<M>(md: ModelData<M>, stored: seq<ModelData<M>>)
  {
    forall i :: 0 <= i < |stored| ==> |stored[i].residuals| == |md.residuals|
  }

  /** The entries the comparison of `newMd` with each stored model puts in the match map. */
  function Matches<M>(newMd: ModelData<M>, stored: seq<ModelData<M>>): seq<Match<M>>
    requires SameSize(newMd, stored)
  {
    if stored == [] then []
    else
      var last := stored[|stored| - 1];
      var prefix := Matches(newMd, stored[..|stored| - 1]);
      match Verdict(newMd, last)
      case None => prefix
      case Some(common) => prefix + [Match(last, common)]
  }

  /** The monitor callbacks the comparison of `newMd` with each stored model makes. */
  function PairEvents<M>(newMd: ModelData<M>, stored: seq<ModelData<M>>): seq<Event<M>>
    requires SameSize(newMd, stored)
  {
    if stored == [] then []
    else
      var last := stored[|stored| - 1];
      var prefix := PairEvents(newMd, stored[..|stored| - 1]);
      match Verdict(newMd, last)
      case None => prefix + [ModelPairNotConsistent(newMd.model, last.model)]
      case Some(common) => prefix + [ModelPairConsistent(newMd.model, last.model, common)]
  }

  /**
   * `matchingPreviousModels.get(md)` for the stored model with minimal sample set `mask`:
   * null (None) when it is not a key. The source keys the map by object identity; among
   * stored models the minimal sample set identifies the model.
   */
  function Lookup<M>(matching: seq<Match<M>>, mask: set<nat>): Option<set<nat>>
  {
    if matching == [] then None
    else if matching[|matching| - 1].existing.minimalSampleSet == mask then Some(matching[|matching| - 1].common)
    else Lookup(matching[..|matching| - 1], mask)
  }

  /** The match map answers for each stored model with its verdict, and for any other with null. */
  lemma {:induction false} LookupMatches<M>(newMd: ModelData<M>, stored: seq<ModelData<M>>)
    requires SameSize(newMd, stored) && DistinctKeys(stored)
    ensures forall i :: 0 <= i < |stored| ==>
              Lookup(Matches(newMd, stored), stored[i].minimalSampleSet) == Verdict(newMd, stored[i])
    ensures forall mask :: !IsStored(stored, mask) ==> Lookup(Matches(newMd, stored), mask) == None
  {
    if stored != [] {
      var init, last := stored[..|stored| - 1], stored[|stored| - 1];
      LookupMatches(newMd, init);
      assert forall i :: 0 <= i < |init| ==> stored[i] == init[i];
      assert !IsStored(init, last.minimalSampleSet);
    }
  }

  /** The comparison makes one callback per stored model and never reports success. */
  lemma {:induction false} PairEventsShape<M>(newMd: ModelData<M>, stored: seq<ModelData<M>>)
    requires SameSize(newMd, stored)
    ensures |PairEvents(newMd, stored)| == |stored|
    ensures forall k :: 0 <= k < |stored| ==>
              PairEvents(newMd, stored)[k].ModelPairConsistent? || PairEvents(newMd, stored)[k].ModelPairNotConsistent?
  {
    if stored != [] {
      PairEventsShape(newMd, stored[..|stored| - 1]);
    }
  }

  /**
   * The loop over the stored models, calling `checkAlphaConsistency(newMd, existing)` for
   * each. None of them has the new model's minimal sample set, so the guard that skips
   * such a model never fires.
   */
  method CheckPrevious<D, M>(ghost fitter: Fitter<D, M>, ghost data: seq<D>,
                             newMd: ModelData<M>, stored: seq<ModelData<M>>)
    returns (matching: seq<Match<M>>, events: seq<Event<M>>)
    requires |newMd.residuals| == |data| && Distinct(Ranking(newMd.residuals))
    requires forall i :: 0 <= i < |stored| ==>
               |stored[i].residuals| == |data| && Distinct(Ranking(stored[i].residuals))
    requires !IsStored(stored, newMd.minimalSampleSet)
    ensures SameSize(newMd, stored)
    ensures matching == Matches(newMd, stored)
    ensures events == PairEvents(newMd, stored)
  {
    matching, events := [], [];
    var i := 0;
    while i < |stored|
      invariant i <= |stored|
      invariant SameSize(newMd, stored[..i])
      invariant matching == Matches(newMd, stored[..i])
      invariant events == PairEvents(newMd, stored[..i])
    {
      var existing := stored[i];
      assert stored[..i + 1][..i] == stored[..i];
      assert newMd.minimalSampleSet != existing.minimalSampleSet;
      var consistent, seenInBoth := ScanRanks(Ranking(newMd.residuals), Ranking(existing.residuals));
      if consistent {
        matching := matching + [Match(existing, seenInBoth)];
        events := events + [ModelPairConsistent(newMd.model, existing.model, seenInBoth)];
      } else {
        events := events + [ModelPairNotConsistent(newMd.model, existing.model)];
      }
      i := i + 1;
    }
    assert stored[..i] == stored;
  }

  /** The pairs storing `newMd` adds: one per entry of its match map, in the map's order. */
  function NewPairs<M>(newMd: ModelData<M>, matching: seq<Match<M>>): seq<MatchingModelPair<M>>
  {
    seq(|matching|, j requires 0 <= j < |matching| =>
      MatchingModelPair(newMd, matching[j].existing, matching[j].common))
  }

  /** Every stored model has residuals over the `n` data elements. */
  predicate Sized<M>(stored: seq<ModelData<M>>, n: nat)
  {
    forall i :: 0 <= i < |stored| ==> |stored[i].residuals| == n
  }

  /**
   * The list of matching model pairs after storing the models of `stored` in order: each
   * model adds a pair with every earlier model that matches it, in comparison order.
   */
  function PairsOf<M>(stored: seq<ModelData<M>>, n: nat): seq<MatchingModelPair<M>>
    requires Sized(stored, n)
  {
    if stored == [] then []
    else
      var init, last := stored[..|stored| - 1], stored[|stored| - 1];
      assert SameSize(last, init) by {
        assert forall i :: 0 <= i < |init| ==> init[i] == stored[i];
      }
      PairsOf(init, n) + NewPairs(last, Matches(last, init))
  }

  /** Storing one more model adds its pairs at the end of the list. */
  lemma PairsOfAppend<M>(stored: seq<ModelData<M>>, newMd: ModelData<M>, n: nat)
    requires Sized(stored, n) && |newMd.residuals| == n
    ensures Sized(stored + [newMd], n) && SameSize(newMd, stored)
    ensures PairsOf(stored + [newMd], n) == PairsOf(stored, n) + NewPairs(newMd, Matches(newMd, stored))
  {
    assert (stored + [newMd])[..|stored|] == stored;
    assert forall i :: 0 <= i < |stored| ==> (stored + [newMd])[i] == stored[i];
  }

  /**
   * Storing the new model's pairs: one pair (new model, matching model, common set) per
   * entry of the match map, appended in the map's order.
   */
  method AddPairs<M>(pairs: seq<MatchingModelPair<M>>, newMd: ModelData<M>, matching: seq<Match<M>>)
    returns (grown: seq<MatchingModelPair<M>>)
    ensures |grown| == |pairs| + |matching| && grown[..|pairs|] == pairs
    ensures forall j :: 0 <= j < |matching| ==>
              grown[|pairs| + j] == MatchingModelPair(newMd, matching[j].existing, matching[j].common)
    ensures grown == pairs + NewPairs(newMd, matching)
  {
    grown := pairs;
    for j := 0 to |matching|
      invariant |grown| == |pairs| + j && grown[..|pairs|] == pairs
      invariant forall k :: 0 <= k < j ==>
                  grown[|pairs| + k] == MatchingModelPair(newMd, matching[k].existing, matching[k].common)
    {
      grown := grown + [MatchingModelPair(newMd, matching[j].existing, matching[j].common)];
    }
    assert grown[|pairs|..] == NewPairs(newMd, matching);
    assert grown == grown[..|pairs|] + grown[|pairs|..];
  }

  /** Every entry of the match map for `newMd` is a stored model with its verdict. */
  lemma {:induction false} MatchesMembers<M>(newMd: ModelData<M>, stored: seq<ModelData<M>>)
    requires SameSize(newMd, stored)
    ensures forall j :: 0 <= j < |Matches(newMd, stored)| ==>
              && Matches(newMd, stored)[j].existing in stored
              && Verdict(newMd, Matches(newMd, stored)[j].existing) == Some(Matches(newMd, stored)[j].common)
  {
    if stored != [] {
      var init, last := stored[..|stored| - 1], stored[|stored| - 1];
      MatchesMembers(newMd, init);
      assert forall md :: md in init ==> md in stored;
      assert last in stored;
      var prefix := Matches(newMd, init);
      match Verdict(newMd, last)
      case None =>
        assert Matches(newMd, stored) == prefix;
      case Some(common) =>
        assert Matches(newMd, stored) == prefix + [Match(last, common)];
    }
  }

  /** The minimal sample sets of the stored models (the store's keys), in storing order. */
  function Keys<M>(stored: seq<ModelData<M>>): seq<set<nat>>
  {
    seq(|stored|, i requires 0 <= i < |stored| => stored[i].minimalSampleSet)
  }

  /** A stored pair: two different stored models, the later first, found consistent on `commonData`. */
  ghost predicate PairOk<M>(stored: seq<ModelData<M>>, p: MatchingModelPair<M>)
  {
    && p.model1 in stored && p.model2 in stored
    && p.model1.minimalSampleSet != p.model2.minimalSampleSet
    && |p.model1.residuals| == |p.model2.residuals|
    && Verdict(p.model1, p.model2) == Some(p.commonData)
  }

  /** Storing a model under a new key keeps the store's keys distinct, and adds the key at the end. */
  lemma StoreKey<M>(stored: seq<ModelData<M>>, newMd: ModelData<M>)
    requires DistinctKeys(stored) && !IsStored(stored, newMd.minimalSampleSet)
    ensures DistinctKeys(stored + [newMd])
    ensures Keys(stored + [newMd]) == Keys(stored) + [newMd.minimalSampleSet]
  {
    assert forall i :: 0 <= i < |stored| ==> (stored + [newMd])[i] == stored[i];
  }

  /** Storing a well-formed model keeps every stored model well formed and ranked. */
  lemma StoreWellFormed<D, M>(fitter: Fitter<D, M>, data: seq<D>, stored: seq<ModelData<M>>, newMd: ModelData<M>)
    requires AllWellFormed(fitter, data, stored) && WellFormed(fitter, data, newMd)
    requires forall i :: 0 <= i < |stored| ==> Ranked(stored[i], |data|)
    requires Ranked(newMd, |data|)
    ensures AllWellFormed(fitter, data, stored + [newMd])
    ensures forall i :: 0 <= i < |stored| + 1 ==> Ranked((stored + [newMd])[i], |data|)
  {
    assert (stored + [newMd])[..|stored|] == stored;
  }

  /**
   * Storing a new model keeps the stored pairs well formed: the new pairs join the new
   * model, now stored, with the stored models that match it.
   */
  lemma StorePairs<M>(stored: seq<ModelData<M>>, pairs: seq<MatchingModelPair<M>>, newMd: ModelData<M>,
                      matching: seq<Match<M>>, grown: seq<MatchingModelPair<M>>)
    requires forall j :: 0 <= j < |pairs| ==> PairOk(stored, pairs[j])
    requires !IsStored(stored, newMd.minimalSampleSet)
    requires SameSize(newMd, stored) && matching == Matches(newMd, stored)
    requires |grown| == |pairs| + |matching| && grown[..|pairs|] == pairs
    requires forall j :: 0 <= j < |matching| ==>
               grown[|pairs| + j] == MatchingModelPair(newMd, matching[j].existing, matching[j].common)
    ensures forall j :: 0 <= j < |grown| ==> PairOk(stored + [newMd], grown[j])
  {
    var stored' := stored + [newMd];
    MatchesMembers(newMd, stored);
    forall j | 0 <= j < |grown|
      ensures PairOk(stored', grown[j])
    {
      if j < |pairs| {
        assert grown[j] == pairs[j];
        assert forall md :: md in stored ==> md in stored';
      } else {
        var existing := matching[j - |pairs|].existing;
        assert existing in stored;
        var i :| 0 <= i < |stored| && stored[i] == existing;
        assert stored[i].minimalSampleSet != newMd.minimalSampleSet;
        assert newMd in stored' && existing in stored';
      }
    }
  }
}
