/**
 * RECON's `perform`: draw minimal samples, fit a model to each new one, compare every new
 * model with the stored ones for alpha-consistency, and finish once three mutually
 * consistent models agree closely enough on the data they share. The search gives up
 * after 200 tries.
 *
 * The store of models (`storedModelData`) lists them in the order they were stored, and the
 * map of matching previous models lists them in the order they were compared: both hash
 * maps' iteration orders are taken as insertion order.
 */
module ReconEstimator {
  import opened Common
  import opened Sampling
  import opened Residuals
  import opened AlphaConsistency
  import opened RobustEstimator
  import opened ElementSets
  import opened BitSetElementSets
  import opened ReconModels
  import opened ReconTriangle

  /** The number of sample-set tries before `perform` gives up. */
  const MaxTries: nat := 200

  /** `maxModelFailCount`: the number of fit failures on minimal sets that makes `perform` throw. */
  const MaxModelFailCount: nat := 1000

  /** The model refitted on the data elements `common`, or `fallback` when the fitter gives none. */
  ghost function RefitOr<D, M>(fitter: Fitter<D, M>, data: seq<D>, common: set<nat>, fallback: M): M
    requires forall x :: x in common ==> x < |data|
  {
    AscendingBelow(common, |data|);
    match fitter.computeModel(Elements(data, Ascending(common)))
    case Some(model) => model
    case None => fallback
  }

  /**
   * The final refit: collect the common data in ascending index order by the documented
   * set-bit traversal, fit the model to it, and keep `fallback` when the fitter gives none.
   */
  method Refit<D, M>(fitter: Fitter<D, M>, data: seq<D>, common: set<nat>, fallback: M)
    returns (inlierModel: M)
    requires forall x :: x in common ==> x < |data|
    ensures inlierModel == RefitOr(fitter, data, common, fallback)
  {
    var members := BitSetElementSet(common, |data|);
    ViewIsElementSet(members, common, |data|);
    assert IsElementSet(members.View(), common, |data|);
    AscendingBelow(common, |data|);
    var visited := Traverse(members.View(), common, |data|);
    var refitted := fitter.computeModel(Elements(data, visited));
    inlierModel := if refitted.Some? then refitted.value else fallback;
  }

  /** The sample sets of the fits that succeeded, in the order of their monitor callbacks. */
  function FittedSamples<M>(events: seq<Event<M>>): seq<set<nat>>
  {
    if events == [] then []
    else
      var e := events[|events| - 1];
      FittedSamples(events[..|events| - 1]) +
        (if e.ModelFromMinimalSampleSet? && e.fitted.Some? then [e.samples.bitSet] else [])
  }

  lemma {:induction false} FittedSamplesAppend<M>(events: seq<Event<M>>, more: seq<Event<M>>)
    ensures FittedSamples(events + more) == FittedSamples(events) + FittedSamples(more)
    decreases |more|
  {
    if more != [] {
      var init := more[..|more| - 1];
      assert (events + more)[..|events + more| - 1] == events + init;
      var e := more[|more| - 1];
      assert (events + more)[|events + more| - 1] == e;
      FittedSamplesAppend(events, init);
      var tail := if e.ModelFromMinimalSampleSet? && e.fitted.Some? then [e.samples.bitSet] else [];
      assert FittedSamples(events + more) == FittedSamples(events + init) + tail;
      assert FittedSamples(more) == FittedSamples(init) + tail;
      assert FittedSamples(events + init) == FittedSamples(events) + FittedSamples(init);
      assert (FittedSamples(events) + FittedSamples(init)) + tail == FittedSamples(events) + (FittedSamples(init) + tail);
    } else {
      assert events + more == events;
    }
  }

  /** Callbacks about model pairs record no fit. */
  lemma {:induction false} FittedSamplesOfPairs<M>(more: seq<Event<M>>)
    requires forall k :: 0 <= k < |more| ==> more[k].ModelPairConsistent? || more[k].ModelPairNotConsistent?
    ensures FittedSamples(more) == []
  {
    if more != [] {
      FittedSamplesOfPairs(more[..|more| - 1]);
    }
  }

  /** No callback is a success report. */
  predicate NoSuccess<M>(events: seq<Event<M>>)
  {
    forall k :: 0 <= k < |events| ==> !events[k].Success?
  }

  /**
   * `md` is the model data `perform` builds for the minimal sample `sample`: its mask, the
   * model the fitter computed from the sample's elements, and that model's residuals over
   * the whole data, sorted.
   */
  ghost predicate ModelDataOf<D, M>(fitter: Fitter<D, M>, data: seq<D>, sample: seq<nat>, md: ModelData<M>)
    requires AllBelow(sample, |data|)
  {
    && md.minimalSampleSet == SetOf(sample)
    && fitter.computeModel(Elements(data, sample)) == Some(md.model)
    && ResidualsOf(fitter, data, md.model, md.residuals)
    && ByErrorThenIndex(md.residuals)
  }

  /**
   * `stored` is the store after trying the minimal samples `tried` in order without
   * finishing: a sample whose mask is already stored is skipped, a sample the fitter finds
   * no model for is dropped, and every other sample's model data is appended.
   */
  ghost predicate StoreAfter<D, M>(fitter: Fitter<D, M>, data: seq<D>, tried: seq<seq<nat>>, stored: seq<ModelData<M>>)
    requires MinimalSamples(tried, |data|, fitter.minimalDataSetSize)
    decreases |tried|
  {
    if tried == [] then stored == []
    else
      var init, sample := tried[..|tried| - 1], tried[|tried| - 1];
      || (&& StoreAfter(fitter, data, init, stored)
          && (IsStored(stored, SetOf(sample)) || fitter.computeModel(Elements(data, sample)).None?))
      || (&& stored != []
          && StoreAfter(fitter, data, init, stored[..|stored| - 1])
          && !IsStored(stored[..|stored| - 1], SetOf(sample))
          && ModelDataOf(fitter, data, sample, stored[|stored| - 1]))
  }

  /** A sample whose mask is stored, or that gives no model, leaves the store as it was. */
  lemma StoreSkips<D, M>(fitter: Fitter<D, M>, data: seq<D>, tried: seq<seq<nat>>, sample: seq<nat>,
                         stored: seq<ModelData<M>>)
    requires MinimalSamples(tried, |data|, fitter.minimalDataSetSize)
    requires |sample| == fitter.minimalDataSetSize && Distinct(sample) && AllBelow(sample, |data|)
    requires StoreAfter(fitter, data, tried, stored)
    requires IsStored(stored, SetOf(sample)) || fitter.computeModel(Elements(data, sample)).None?
    ensures MinimalSamples(tried + [sample], |data|, fitter.minimalDataSetSize)
    ensures StoreAfter(fitter, data, tried + [sample], stored)
  {
    var t := tried + [sample];
    assert t[..|t| - 1] == tried && t[|t| - 1] == sample;
  }

  /** A sample with a new mask and a model adds its model data at the end of the store. */
  lemma StoreGrows<D, M>(fitter: Fitter<D, M>, data: seq<D>, tried: seq<seq<nat>>, sample: seq<nat>,
                         stored: seq<ModelData<M>>, newMd: ModelData<M>)
    requires MinimalSamples(tried, |data|, fitter.minimalDataSetSize)
    requires |sample| == fitter.minimalDataSetSize && Distinct(sample) && AllBelow(sample, |data|)
    requires StoreAfter(fitter, data, tried, stored)
    requires !IsStored(stored, SetOf(sample)) && ModelDataOf(fitter, data, sample, newMd)
    ensures MinimalSamples(tried + [sample], |data|, fitter.minimalDataSetSize)
    ensures StoreAfter(fitter, data, tried + [sample], stored + [newMd])
  {
    var t, s := tried + [sample], stored + [newMd];
    assert t[..|t| - 1] == tried && t[|t| - 1] == sample;
    assert s[..|s| - 1] == stored && s[|s| - 1] == newMd;
  }

  /** The store after some tries keeps its keys distinct and its model data well formed. */
  lemma {:induction false} StoreAfterKeys<D, M>(fitter: Fitter<D, M>, data: seq<D>, tried: seq<seq<nat>>,
                                                stored: seq<ModelData<M>>)
    requires MinimalSamples(tried, |data|, fitter.minimalDataSetSize)
    requires StoreAfter(fitter, data, tried, stored)
    ensures DistinctKeys(stored) && AllWellFormed(fitter, data, stored)
    decreases |tried|
  {
    if tried != [] {
      var init, sample := tried[..|tried| - 1], tried[|tried| - 1];
      if StoreAfter(fitter, data, init, stored) &&
         (IsStored(stored, SetOf(sample)) || fitter.computeModel(Elements(data, sample)).None?) {
        StoreAfterKeys(fitter, data, init, stored);
      } else {
        var before, md := stored[..|stored| - 1], stored[|stored| - 1];
        StoreAfterKeys(fitter, data, init, before);
        assert stored == before + [md];
        assert WellFormed(fitter, data, md);
        StoreKey(before, md);
      }
    }
  }

  /** Every model data in the store after some tries is that of a tried sample. */
  lemma {:induction false} StoreAfterFrom<D, M>(fitter: Fitter<D, M>, data: seq<D>, tried: seq<seq<nat>>,
                                                stored: seq<ModelData<M>>)
    requires MinimalSamples(tried, |data|, fitter.minimalDataSetSize)
    requires StoreAfter(fitter, data, tried, stored)
    ensures forall i :: 0 <= i < |stored| ==>
              exists j :: 0 <= j < |tried| && ModelDataOf(fitter, data, tried[j], stored[i])
    decreases |tried|
  {
    if tried != [] {
      var init, sample := tried[..|tried| - 1], tried[|tried| - 1];
      if StoreAfter(fitter, data, init, stored) &&
         (IsStored(stored, SetOf(sample)) || fitter.computeModel(Elements(data, sample)).None?) {
        StoreAfterFrom(fitter, data, init, stored);
        forall i | 0 <= i < |stored|
          ensures exists j :: 0 <= j < |tried| && ModelDataOf(fitter, data, tried[j], stored[i])
        {
          var j :| 0 <= j < |init| && ModelDataOf(fitter, data, init[j], stored[i]);
          assert init[j] == tried[j];
        }
      } else {
        var before := stored[..|stored| - 1];
        StoreAfterFrom(fitter, data, init, before);
        forall i | 0 <= i < |stored|
          ensures exists j :: 0 <= j < |tried| && ModelDataOf(fitter, data, tried[j], stored[i])
        {
          if i < |before| {
            var j :| 0 <= j < |init| && ModelDataOf(fitter, data, init[j], before[i]);
            assert init[j] == tried[j] && before[i] == stored[i];
          } else {
            assert ModelDataOf(fitter, data, tried[|tried| - 1], stored[i]);
          }
        }
      }
    }
  }

  /** The store after some tries holds the mask of every tried sample the fitter finds a model for. */
  lemma {:induction false} StoreAfterHolds<D, M>(fitter: Fitter<D, M>, data: seq<D>, tried: seq<seq<nat>>,
                                                 stored: seq<ModelData<M>>)
    requires MinimalSamples(tried, |data|, fitter.minimalDataSetSize)
    requires StoreAfter(fitter, data, tried, stored)
    ensures forall j :: 0 <= j < |tried| && fitter.computeModel(Elements(data, tried[j])).Some? ==>
              IsStored(stored, SetOf(tried[j]))
    decreases |tried|
  {
    if tried != [] {
      var init, sample := tried[..|tried| - 1], tried[|tried| - 1];
      if StoreAfter(fitter, data, init, stored) &&
         (IsStored(stored, SetOf(sample)) || fitter.computeModel(Elements(data, sample)).None?) {
        StoreAfterHolds(fitter, data, init, stored);
        forall j | 0 <= j < |tried| && fitter.computeModel(Elements(data, tried[j])).Some?
          ensures IsStored(stored, SetOf(tried[j]))
        {
          if j < |init| {
            assert init[j] == tried[j];
          }
        }
      } else {
        var before := stored[..|stored| - 1];
        StoreAfterHolds(fitter, data, init, before);
        forall j | 0 <= j < |tried| && fitter.computeModel(Elements(data, tried[j])).Some?
          ensures IsStored(stored, SetOf(tried[j]))
        {
          if j < |init| {
            assert init[j] == tried[j];
            var i :| 0 <= i < |before| && before[i].minimalSampleSet == SetOf(tried[j]);
            assert stored[i] == before[i];
          } else {
            assert stored[|stored| - 1].minimalSampleSet == SetOf(tried[j]);
          }
        }
      }
    }
  }

  /**
   * The search after the samples `tried` without finishing, the draws read up to `pos`:
   * `tried` are the first samples the draws give, the store is what they leave, the pairs
   * are those the stored models formed, and no pair closed a triangle with a model stored
   * after it.
   */
  ghost predicate Searched<D, M>(fitter: Fitter<D, M>, data: seq<D>, draws: seq<nat>, pos: nat,
                                 tried: seq<seq<nat>>, stored: seq<ModelData<M>>,
                                 pairs: seq<MatchingModelPair<M>>)
    requires 1 <= fitter.minimalDataSetSize && pos <= |draws|
  {
    && Samples(fitter.minimalDataSetSize, draws, 0) == tried + Samples(fitter.minimalDataSetSize, draws, pos)
    && MinimalSamples(tried, |data|, fitter.minimalDataSetSize)
    && StoreAfter(fitter, data, tried, stored)
    && Sized(stored, |data|)
    && pairs == PairsOf(stored, |data|)
    && NoneClosed(stored, |data|)
  }

  lemma SearchedStart<D, M>(fitter: Fitter<D, M>, data: seq<D>, draws: seq<nat>)
    requires 1 <= fitter.minimalDataSetSize
    ensures Searched(fitter, data, draws, 0, [], [], [])
  {
  }

  /**
   * The next sample the draws give is the one the sampling loop draws from `pos`; without
   * one, the samples tried are all there are.
   */
  lemma SearchedNext(m: nat, draws: seq<nat>, pos: nat, tried: seq<seq<nat>>, sample: seq<nat>, next: nat)
    requires 1 <= m && pos <= |draws|
    requires Samples(m, draws, 0) == tried + Samples(m, draws, pos)
    requires next == SampleEnd(m, draws, pos, pos) && sample == Dedup(draws[pos..next])
    ensures |sample| < m ==> Samples(m, draws, 0) == tried
    ensures |sample| >= m ==>
              && Samples(m, draws, 0) == (tried + [sample]) + Samples(m, draws, next)
              && Samples(m, draws, 0)[..|tried|] == tried
              && |tried| < |Samples(m, draws, 0)| && Samples(m, draws, 0)[|tried|] == sample
  {
    SamplesFirst(m, draws, pos, sample, next);
    if |sample| >= m {
      TakeSample(Samples(m, draws, 0), tried, sample, Samples(m, draws, pos), Samples(m, draws, next));
    } else {
      assert tried + [] == tried;
    }
  }

  /** A sample whose mask is stored, or that gives no model, leaves store and pairs alone. */
  lemma SearchedSkip<D, M>(fitter: Fitter<D, M>, data: seq<D>, draws: seq<nat>, pos: nat,
                           tried: seq<seq<nat>>, stored: seq<ModelData<M>>, pairs: seq<MatchingModelPair<M>>,
                           sample: seq<nat>, next: nat)
    requires 1 <= fitter.minimalDataSetSize && pos <= |draws|
    requires Searched(fitter, data, draws, pos, tried, stored, pairs)
    requires next == SampleEnd(fitter.minimalDataSetSize, draws, pos, pos) && sample == Dedup(draws[pos..next])
    requires |sample| == fitter.minimalDataSetSize && Distinct(sample) && AllBelow(sample, |data|)
    requires IsStored(stored, SetOf(sample)) || fitter.computeModel(Elements(data, sample)).None?
    ensures Searched(fitter, data, draws, next, tried + [sample], stored, pairs)
  {
    SearchedNext(fitter.minimalDataSetSize, draws, pos, tried, sample, next);
    StoreSkips(fitter, data, tried, sample, stored);
  }

  /**
   * A sample with a new mask and a model is stored, with its pairs, when no stored pair
   * closes a triangle with it.
   */
  lemma SearchedStore<D, M>(fitter: Fitter<D, M>, data: seq<D>, draws: seq<nat>, pos: nat,
                            tried: seq<seq<nat>>, stored: seq<ModelData<M>>, pairs: seq<MatchingModelPair<M>>,
                            sample: seq<nat>, next: nat, newMd: ModelData<M>, pairs': seq<MatchingModelPair<M>>)
    requires 1 <= fitter.minimalDataSetSize && pos <= |draws|
    requires Searched(fitter, data, draws, pos, tried, stored, pairs)
    requires next == SampleEnd(fitter.minimalDataSetSize, draws, pos, pos) && sample == Dedup(draws[pos..next])
    requires |sample| == fitter.minimalDataSetSize && Distinct(sample) && AllBelow(sample, |data|)
    requires !IsStored(stored, SetOf(sample)) && ModelDataOf(fitter, data, sample, newMd)
    requires SameSize(newMd, stored)
    requires Unclosed(pairs, Matches(newMd, stored), |data|)
    requires pairs' == pairs + NewPairs(newMd, Matches(newMd, stored))
    ensures Searched(fitter, data, draws, next, tried + [sample], stored + [newMd], pairs')
  {
    var n := |data|;
    SearchedNext(fitter.minimalDataSetSize, draws, pos, tried, sample, next);
    StoreGrows(fitter, data, tried, sample, stored, newMd);
    PairsOfAppend(stored, newMd, n);
    NoneClosedAppend(stored, newMd, n);
  }

  /** How a successful search ended: the last model fitted, the stored pair closing the triangle with it, and the common data. */
  datatype Closing<M> = Closing(newest: ModelData<M>, at: nat, inliers: set<nat>)

  /**
   * The try of `sample` ended the search with the store `stored` and its pairs `pairs`:
   * the sample's mask is new, `c.newest` is its model data, pair `c.at` is the first stored
   * pair to close a triangle with it, its three models are pairwise consistent, `value` is
   * the refit on the triangle's common data, and the callbacks are the fits and comparisons
   * so far followed by one success report.
   */
  ghost predicate Finished<D, M>(fitter: Fitter<D, M>, data: seq<D>, sample: seq<nat>, stored: seq<ModelData<M>>,
                                 pairs: seq<MatchingModelPair<M>>, c: Closing<M>, value: M, events: seq<Event<M>>)
    requires AllBelow(sample, |data|) && Sized(stored, |data|)
  {
    && !IsStored(stored, SetOf(sample))
    && ModelDataOf(fitter, data, sample, c.newest)
    && FirstCloses(pairs, Matches(c.newest, stored), |data|, c.at, c.inliers)
    && pairs[c.at].model1 in stored && pairs[c.at].model2 in stored
    && Triangle(|data|, c.newest, pairs[c.at].model1, pairs[c.at].model2, c.inliers)
    && value == RefitOr(fitter, data, c.inliers, c.newest.model)
    && FittedSamples(events) == Keys(stored) + [c.newest.minimalSampleSet]
    && |events| > 0 && NoSuccess(events[..|events| - 1])
    && events[|events| - 1] == Success(value, BitSetElementSet(c.inliers, |data|))
  }

  /**
   * The state the search keeps between tries: `Searched`, the store's and pairs' shape, and
   * callbacks that report a fit for each stored model and no success.
   */
  ghost predicate Between<D, M>(fitter: Fitter<D, M>, data: seq<D>, draws: seq<nat>, pos: nat,
                                tried: seq<seq<nat>>, stored: seq<ModelData<M>>,
                                pairs: seq<MatchingModelPair<M>>, events: seq<Event<M>>)
    requires 1 <= fitter.minimalDataSetSize && pos <= |draws|
  {
    && Searched(fitter, data, draws, pos, tried, stored, pairs)
    && StoreOk(fitter, data, stored, pairs)
    && FittedSamples(events) == Keys(stored) && NoSuccess(events)
  }

  /**
   * One try of `perform`: draw the next minimal sample from `pos`, skip it when its mask is
   * stored, and otherwise fit it, report the fit, and consider the new model. `drew` is
   * false when the draws run out, `failed` says the fitter gave no model, and `result` is
   * the refitted model when a triangle closed.
   */
  method Try<D, M>(fitter: Fitter<D, M>, data: seq<D>, draws: seq<nat>, pos: nat, ghost tried: seq<seq<nat>>,
                   storedModelData: seq<ModelData<M>>, matchingModelPairs: seq<MatchingModelPair<M>>,
                   events: seq<Event<M>>)
    returns (drew: bool, next: nat, ghost sample: seq<nat>, failed: bool, result: Option<M>,
             stored': seq<ModelData<M>>, pairs': seq<MatchingModelPair<M>>, events': seq<Event<M>>,
             ghost closing: Option<Closing<M>>)
    requires 1 <= fitter.minimalDataSetSize <= |data| && pos <= |draws|
    requires forall k :: 0 <= k < |draws| ==> draws[k] < |data|
    requires Between(fitter, data, draws, pos, tried, storedModelData, matchingModelPairs, events)
    ensures pos <= next <= |draws|
    ensures !drew ==> Samples(fitter.minimalDataSetSize, draws, 0) == tried
    ensures drew ==>
              && |tried| < |Samples(fitter.minimalDataSetSize, draws, 0)|
              && Samples(fitter.minimalDataSetSize, draws, 0)[..|tried|] == tried
              && Samples(fitter.minimalDataSetSize, draws, 0)[|tried|] == sample
              && AllBelow(sample, |data|)
    ensures failed ==> drew && result.None?
    ensures drew && result.None? ==> Between(fitter, data, draws, next, tried + [sample], stored', pairs', events')
    ensures drew && result.Some? ==> closing.Some?
    ensures drew && result.Some? && closing.Some? ==>
              Finished(fitter, data, sample, storedModelData, matchingModelPairs, closing.value, result.value, events')
  {
    var n, m := |data|, fitter.minimalDataSetSize;
    var samples, sampleMask;
    drew, samples, sampleMask, next := DrawSample(n, m, draws, pos);
    sample, failed, result, closing := samples, false, None, None;
    stored', pairs', events' := storedModelData, matchingModelPairs, events;
    SearchedNext(m, draws, pos, tried, samples, next);
    if !drew {
      return;
    }
    // one already tried is skipped
    if IsStored(storedModelData, sampleMask) {
      SearchedSkip(fitter, data, draws, pos, tried, storedModelData, matchingModelPairs, samples, next);
      return;
    }
    var model := fitter.computeModel(Elements(data, samples));
    var fitted := ModelFromMinimalSampleSet(BitSetElementSet(sampleMask, n), model);
    AppendFit(events, fitted);
    events' := events + [fitted];
    if model.None? {
      failed := true;
      SearchedSkip(fitter, data, draws, pos, tried, storedModelData, matchingModelPairs, samples, next);
      return;
    }
    var pairEvents, inliers, newModelData, grown, morePairs;
    pairEvents, result, inliers, newModelData, grown, morePairs, closing :=
      Consider(fitter, data, storedModelData, matchingModelPairs, samples, sampleMask, model.value);
    AppendPairs(events', pairEvents);
    events' := events' + pairEvents;
    if result.Some? {
      var last := Success(result.value, BitSetElementSet(inliers, n));
      AppendSuccess(events', last);
      events' := events' + [last];
      return;
    }
    SearchedStore(fitter, data, draws, pos, tried, storedModelData, matchingModelPairs,
                  samples, next, newModelData, morePairs);
    stored', pairs' := grown, morePairs;
  }

  /**
   * RECON's `perform`, for a fitter needing at least one element and no more than the data
   * holds. The random stream is `draws`, which gives the minimal samples
   * `Samples(m, draws, 0)`; `attempts` counts the tries made, `stored` is the final store of
   * models, and on success `closing` says how the search ended.
   */
  method Perform<D, M>(fitter: Fitter<D, M>, data: seq<D>, draws: seq<nat>)
    returns (r: Result<M, Failure>, events: seq<Event<M>>,
             ghost attempts: nat, ghost stored: seq<ModelData<M>>, ghost closing: Option<Closing<M>>)
    requires 1 <= fitter.minimalDataSetSize <= |data|
    requires forall k :: 0 <= k < |draws| ==> draws[k] < |data|
    ensures attempts <= MaxTries
    ensures r.Err? ==> r.error == NoConsensus || r.error == RandomStreamExhausted
    ensures r == Err(NoConsensus) ==> attempts == MaxTries
    ensures r == Err(RandomStreamExhausted) ==>
              attempts < MaxTries && attempts == |Samples(fitter.minimalDataSetSize, draws, 0)|
    ensures r.Err? ==> GaveUp(fitter, data, draws, attempts, stored, events)
    ensures r.Ok? ==> closing.Some? && Won(fitter, data, draws, attempts, stored, closing.value, r.value, events)
  {
    var n, m := |data|, fitter.minimalDataSetSize;
    events, closing := [], None;
    var storedModelData: seq<ModelData<M>> := [];
    var pos := 0;
    var modelFailCount: nat := 0;
    var matchingModelPairs: seq<MatchingModelPair<M>> := [];
    var tries := 0;
    ghost var tried: seq<seq<nat>> := [];
    SearchedStart(fitter, data, draws);
    while tries < MaxTries
      invariant tries <= MaxTries && pos <= |draws| && |tried| == tries
      invariant modelFailCount <= tries
      invariant Between(fitter, data, draws, pos, tried, storedModelData, matchingModelPairs, events)
    {
      var drew, next, sample, failed, result, stored', pairs', events', c :=
        Try(fitter, data, draws, pos, tried, storedModelData, matchingModelPairs, events);
      if !drew {
        Exhausted(fitter, data, draws, pos, tried, storedModelData, matchingModelPairs, events, tries);
        return Err(RandomStreamExhausted), events, tries, storedModelData, None;
      }
      if failed {
        modelFailCount := modelFailCount + 1;
        // the attempt cap keeps the fit-failure limit out of reach
        assert modelFailCount < MaxModelFailCount;
      }
      if result.Some? {
        Succeeded(fitter, data, draws, pos, tried, storedModelData, matchingModelPairs, events, tries + 1,
                  sample, c.value, result.value, events');
        return Ok(result.value), events', tries + 1, storedModelData, c;
      }
      pos, tried := next, tried + [sample];
      storedModelData, matchingModelPairs, events := stored', pairs', events';
      tries := tries + 1;
    }
    Exhausted(fitter, data, draws, pos, tried, storedModelData, matchingModelPairs, events, tries);
    return Err(NoConsensus), events, tries, storedModelData, None;
  }

  /**
   * The search gave up after the first `attempts` samples the draws give: the store is
   * what those samples leave, its keys are distinct, its model data well formed, no pair
   * closed a triangle with a model stored after it, and the callbacks report one fit per
   * stored model and no success.
   */
  ghost predicate GaveUp<D, M>(fitter: Fitter<D, M>, data: seq<D>, draws: seq<nat>, attempts: nat,
                               stored: seq<ModelData<M>>, events: seq<Event<M>>)
    requires 1 <= fitter.minimalDataSetSize
  {
    var all := Samples(fitter.minimalDataSetSize, draws, 0);
    && MinimalSamples(all, |data|, fitter.minimalDataSetSize)
    && attempts <= |all|
    && StoreAfter(fitter, data, all[..attempts], stored)
    && DistinctKeys(stored) && AllWellFormed(fitter, data, stored) && Sized(stored, |data|)
    && NoneClosed(stored, |data|)
    && FittedSamples(events) == Keys(stored) && NoSuccess(events)
  }

  /**
   * The search finished at try `attempts`: the store is what the samples before it leave,
   * with distinct keys, well-formed model data and no triangle closed before, and the
   * sample of the last try `Finished` the search.
   */
  ghost predicate Won<D, M>(fitter: Fitter<D, M>, data: seq<D>, draws: seq<nat>, attempts: nat,
                            stored: seq<ModelData<M>>, c: Closing<M>, value: M, events: seq<Event<M>>)
    requires 1 <= fitter.minimalDataSetSize
  {
    var all := Samples(fitter.minimalDataSetSize, draws, 0);
    && MinimalSamples(all, |data|, fitter.minimalDataSetSize)
    && 1 <= attempts <= |all|
    && StoreAfter(fitter, data, all[..attempts - 1], stored)
    && DistinctKeys(stored) && AllWellFormed(fitter, data, stored) && Sized(stored, |data|)
    && NoneClosed(stored, |data|)
    && Finished(fitter, data, all[attempts - 1], stored, PairsOf(stored, |data|), c, value, events)
  }

  /** The state between tries, when the search gives up after `attempts` tries. */
  lemma Exhausted<D, M>(fitter: Fitter<D, M>, data: seq<D>, draws: seq<nat>, pos: nat,
                        tried: seq<seq<nat>>, stored: seq<ModelData<M>>,
                        pairs: seq<MatchingModelPair<M>>, events: seq<Event<M>>, attempts: nat)
    requires 1 <= fitter.minimalDataSetSize && pos <= |draws|
    requires forall k :: 0 <= k < |draws| ==> draws[k] < |data|
    requires Between(fitter, data, draws, pos, tried, stored, pairs, events) && attempts == |tried|
    ensures GaveUp(fitter, data, draws, attempts, stored, events)
  {
    var all := Samples(fitter.minimalDataSetSize, draws, 0);
    SamplesValid(|data|, fitter.minimalDataSetSize, draws, 0);
    assert all[..|tried|] == tried;
  }

  /** The state before the last try, and how that try ended the search after `attempts` tries. */
  lemma Succeeded<D, M>(fitter: Fitter<D, M>, data: seq<D>, draws: seq<nat>, pos: nat,
                        tried: seq<seq<nat>>, stored: seq<ModelData<M>>,
                        pairs: seq<MatchingModelPair<M>>, events: seq<Event<M>>, attempts: nat,
                        sample: seq<nat>, c: Closing<M>, value: M, events': seq<Event<M>>)
    requires 1 <= fitter.minimalDataSetSize && pos <= |draws|
    requires forall k :: 0 <= k < |draws| ==> draws[k] < |data|
    requires Between(fitter, data, draws, pos, tried, stored, pairs, events) && attempts == |tried| + 1
    requires && |tried| < |Samples(fitter.minimalDataSetSize, draws, 0)|
             && Samples(fitter.minimalDataSetSize, draws, 0)[..|tried|] == tried
             && Samples(fitter.minimalDataSetSize, draws, 0)[|tried|] == sample
             && AllBelow(sample, |data|)
    requires Finished(fitter, data, sample, stored, pairs, c, value, events')
    ensures Won(fitter, data, draws, attempts, stored, c, value, events')
  {
    SamplesValid(|data|, fitter.minimalDataSetSize, draws, 0);
  }

  /** A fit callback records its sample set when the fit gave a model. */
  lemma AppendFit<M>(events: seq<Event<M>>, fitted: Event<M>)
    requires NoSuccess(events) && fitted.ModelFromMinimalSampleSet?
    ensures NoSuccess(events + [fitted])
    ensures FittedSamples(events + [fitted]) ==
              FittedSamples(events) + if fitted.fitted.Some? then [fitted.samples.bitSet] else []
  {
    FittedSamplesAppend(events, [fitted]);
    assert FittedSamples([fitted]) == if fitted.fitted.Some? then [fitted.samples.bitSet] else [];
  }

  /** The pair callbacks of one comparison record no fit and no success. */
  lemma AppendPairs<M>(events: seq<Event<M>>, pairEvents: seq<Event<M>>)
    requires NoSuccess(events) && NoSuccess(pairEvents) && FittedSamples(pairEvents) == []
    ensures NoSuccess(events + pairEvents)
    ensures FittedSamples(events + pairEvents) == FittedSamples(events)
  {
    FittedSamplesAppend(events, pairEvents);
    assert FittedSamples(events) + [] == FittedSamples(events);
  }

  /** The success callback ends the trace and records no fit. */
  lemma AppendSuccess<M>(events: seq<Event<M>>, last: Event<M>)
    requires last.Success?
    ensures FittedSamples(events + [last]) == FittedSamples(events)
    ensures (events + [last])[..|events|] == events && (events + [last])[|events|] == last
  {
    FittedSamplesAppend(events, [last]);
    assert FittedSamples([last]) == [];
    assert (events + [last])[..|events|] == events;
  }

  /**
   * The store and the pairs as the search keeps them: the stored models have distinct
   * keys and are well formed, and every pair joins two of them.
   */
  ghost predicate StoreOk<D, M>(fitter: Fitter<D, M>, data: seq<D>,
                                stored: seq<ModelData<M>>, pairs: seq<MatchingModelPair<M>>)
  {
    && DistinctKeys(stored)
    && AllWellFormed(fitter, data, stored)
    && (forall i :: 0 <= i < |stored| ==> Ranked(stored[i], |data|))
    && forall j :: 0 <= j < |pairs| ==> PairOk(stored, pairs[j])
  }

  /**
   * One new model, fitted to the minimal sample `samples` whose mask is not stored yet:
   * compare it with the stored models, look for a stored pair that closes a triangle with
   * it, and otherwise store it with its new pairs. `stored'` is the store with the new
   * model data `newModelData` added, which the caller keeps only when no triangle closed;
   * on success (`result`) the triangle's common data are `inliers`.
   */
  method Consider<D, M>(fitter: Fitter<D, M>, data: seq<D>,
                        storedModelData: seq<ModelData<M>>, matchingModelPairs: seq<MatchingModelPair<M>>,
                        samples: seq<nat>, sampleMask: set<nat>, model: M)
    returns (pairEvents: seq<Event<M>>, result: Option<M>, inliers: set<nat>, newModelData: ModelData<M>,
             stored': seq<ModelData<M>>, pairs': seq<MatchingModelPair<M>>, ghost closing: Option<Closing<M>>)
    requires StoreOk(fitter, data, storedModelData, matchingModelPairs)
    requires |samples| == fitter.minimalDataSetSize && Distinct(samples) && AllBelow(samples, |data|)
    requires SetOf(samples) == sampleMask && !IsStored(storedModelData, sampleMask)
    requires fitter.computeModel(Elements(data, samples)) == Some(model)
    ensures ModelDataOf(fitter, data, samples, newModelData) && newModelData.model == model
    ensures SameSize(newModelData, storedModelData)
    ensures stored' == storedModelData + [newModelData]
    ensures DistinctKeys(stored') && Keys(stored') == Keys(storedModelData) + [sampleMask]
    ensures pairEvents == PairEvents(newModelData, storedModelData)
    ensures NoSuccess(pairEvents) && FittedSamples(pairEvents) == []
    ensures result.None? ==>
              && Unclosed(matchingModelPairs, Matches(newModelData, storedModelData), |data|)
              && pairs' == matchingModelPairs + NewPairs(newModelData, Matches(newModelData, storedModelData))
              && StoreOk(fitter, data, stored', pairs')
    ensures result.Some? ==> closing.Some?
    ensures result.Some? && closing.Some? ==>
              var Closing(newest, at, common) := closing.value;
              && newest == newModelData && common == inliers
              && FirstCloses(matchingModelPairs, Matches(newModelData, storedModelData), |data|, at, inliers)
              && (var p := matchingModelPairs[at];
                  p.model1 in storedModelData && p.model2 in storedModelData
                  && Triangle(|data|, newest, p.model1, p.model2, inliers))
              && result.value == RefitOr(fitter, data, inliers, newest.model)
  {
    var n := |data|;
    newModelData := NewModelData(fitter, data, model, sampleMask);
    assert WellFormed(fitter, data, newModelData) by {
      assert SetOf(samples) == newModelData.minimalSampleSet;
    }
    WellFormedIsRanked(fitter, data, newModelData);
    var matching;
    matching, pairEvents := CheckPrevious(fitter, data, newModelData, storedModelData);
    PairEventsShape(newModelData, storedModelData);
    FittedSamplesOfPairs(pairEvents);
    assert NoSuccess(pairEvents) && FittedSamples(pairEvents) == [];
    StoreKey(storedModelData, newModelData);
    StoreWellFormed(fitter, data, storedModelData, newModelData);
    stored' := storedModelData + [newModelData];
    result, inliers, closing := None, {}, None;
    if |matching| > 0 {
      var found, commonBetweenAllThree, at := FindTriangle(matchingModelPairs, matching, n);
      if found {
        var existingPair := matchingModelPairs[at];
        ClosingTriangle(n, storedModelData, newModelData, existingPair, commonBetweenAllThree);
        var inlierModel := Refit(fitter, data, commonBetweenAllThree, model);
        return pairEvents, Some(inlierModel), commonBetweenAllThree, newModelData, stored', matchingModelPairs,
               Some(Closing(newModelData, at, commonBetweenAllThree));
      }
    } else {
      NoMatchCloses(matchingModelPairs, n);
    }
    pairs' := AddPairs(matchingModelPairs, newModelData, matching);
    StorePairs(storedModelData, matchingModelPairs, newModelData, matching, pairs');
  }
}
