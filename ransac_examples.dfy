/**
 * The scenario of the RANSAC unit test: integer data, a fitter taking the integer mean of
 * one element or more, and inlier threshold 0, so an element is an inlier exactly when it
 * equals the model.
 */
module RansacExamples {
  import opened Common
  import opened RobustEstimator
  import opened RansacEstimator
  import opened Sampling

  function Sum(s: seq<int>): int
  {
    if s == [] then 0 else Sum(s[..|s| - 1]) + s[|s| - 1]
  }

  /** Java's `int` division, which truncates toward zero. */
  function JavaDiv(a: int, b: int): int
    requires b > 0
  {
    if a >= 0 then a / b else -((-a) / b)
  }

  /**
   * `sum / data.size()`. On an empty list the source divides by zero; the estimators never
   * fit an empty list with this fitter, and the model answers no model there.
   */
  function IntegerMean(s: seq<int>): Option<int>
  {
    if |s| == 0 then None else Some(JavaDiv(Sum(s), |s|))
  }

  /** `Math.abs(model - datum)`. */
  function Distance(model: int, datum: int): real
  {
    if model >= datum then (model - datum) as real else (datum - model) as real
  }

  /** The test's fitter: minimal data set size 1. */
  function IntegerFitter(): Fitter<int, int>
  {
    Fitter(1, IntegerMean, Distance)
  }

  /** The mean of any non-empty list of eights is 8. */
  lemma {:induction false} MeanOfEights(s: seq<int>)
    requires |s| > 0 && forall k :: 0 <= k < |s| ==> s[k] == 8
    ensures IntegerMean(s) == Some(8)
  {
    SumOfEights(s);
    MultipleDiv(8, |s|);
  }

  /** A multiple of `n` divided by `n` gives the factor back. */
  lemma MultipleDiv(k: nat, n: nat)
    requires n > 0
    ensures (k * n) / n == k
  {
    var q, r := (k * n) / n, (k * n) % n;
    assert k * n == q * n + r && 0 <= r < n;
    assert (k - q) * n == r;
    if q < k {
      MulAtLeast(k - q, n);
    } else if q > k {
      MulAtLeast(q - k, n);
    }
  }

  lemma MulAtLeast(a: int, n: nat)
    requires a >= 1
    ensures a * n >= n
  {
  }

  lemma {:induction false} SumOfEights(s: seq<int>)
    requires forall k :: 0 <= k < |s| ==> s[k] == 8
    ensures Sum(s) == 8 * |s|
  {
    if s != [] {
      SumOfEights(s[..|s| - 1]);
    }
  }

  /**
   * With every element an inlier (the test's second data set is a hundred copies of 8),
   * whatever the draws, a result is always 8.
   */
  method AllInliers(data: seq<int>, draws: seq<nat>, budget: (nat, nat, nat, real) -> int)
    returns (r: Result<int, Failure>)
    requires forall k :: 0 <= k < |data| ==> data[k] == 8
    requires forall k :: 0 <= k < |draws| ==> draws[k] < |data|
    ensures r.Ok? ==> r.value == 8
  {
    var ransac := new Ransac<int, int>(0.0);
    var events;
    r, events := ransac.Perform(IntegerFitter(), data, draws, budget);
    if r.Ok? {
      AllInliersResult(ransac.Setup(IntegerFitter(), data, budget), draws);
    }
  }

  /** A run of the test's fitter over data of eights only that succeeds gives 8. */
  lemma AllInliersResult(c: Config<int, int>, draws: seq<nat>)
    requires c.fitter == IntegerFitter()
    requires forall k :: 0 <= k < |c.data| ==> c.data[k] == 8
    requires forall k :: 0 <= k < |draws| ==> draws[k] < |c.data|
    ensures SearchResult(c, Drawn(c, draws)).Ok? ==> SearchResult(c, Drawn(c, draws)).value == 8
  {
    if SearchResult(c, Drawn(c, draws)).Ok? {
      SearchOutcome(c, draws);
      var ts := TrialsOf(c, Drawn(c, draws));
      var t := ts[Leader(ts)];
      TrialConsensus(c.fitter, c.data, c.threshold, t);
      MeanOfEights(Elements(c.data, t.sample));
      MeanOfEights(Elements(c.data, t.consensus));
    }
  }

  /**
   * Data made of `eights` copies of 8 followed by outliers that differ from 8 and from each
   * other, at least two eights, so that the eights outvote any single outlier.
   */
  predicate Mixed(data: seq<int>, eights: nat)
  {
    && 2 <= eights <= |data|
    && (forall k :: 0 <= k < eights ==> data[k] == 8)
    && (forall k :: eights <= k < |data| ==> data[k] != 8)
    && (forall k, l :: eights <= k < l < |data| ==> data[k] != data[l])
  }

  /** The first data set of the test, `[8, 8, 8, 8, 8, 1, 4]`, is such data with five eights. */
  lemma TestDataIsMixed()
    ensures Mixed([8, 8, 8, 8, 8, 1, 4], 5)
  {
  }

  /**
   * Under threshold 0 a trial agrees with exactly the elements equal to its model, which is
   * the one element of its sample.
   */
  lemma TrialAgreement(data: seq<int>, t: Trial<int>)
    requires IsTrial(IntegerFitter(), data, 0.0, t)
    ensures t.model in data
    ensures forall j: nat :: j in t.consensus <==> j < |data| && data[j] == t.model
  {
    var fitter := IntegerFitter();
    TrialConsensus(fitter, data, 0.0, t);
    var i := t.sample[0];
    var x := data[i];
    assert Elements(data, t.sample) == [x];
    assert [x][..0] == [] && Sum([x]) == x;
    assert fitter.computeModel([x]) == IntegerMean([x]) == Some(x);
    forall j: nat
      ensures j in t.consensus <==> j < |data| && data[j] == t.model
    {
      assert Agrees(fitter, data, 0.0, t.model, j) <==> j < |data| && data[j] == t.model;
      assert j in t.sample <==> j == i;
    }
  }

  /**
   * On mixed data, a duplicate-free list of exactly the elements equal to a data value
   * holds all the eights for the value 8, and one element for an outlier.
   */
  lemma MixedConsensus(data: seq<int>, eights: nat, consensus: seq<nat>, model: int)
    requires Mixed(data, eights) && model in data && Distinct(consensus)
    requires forall j: nat :: j in consensus <==> j < |data| && data[j] == model
    ensures model == 8 ==> |consensus| == eights && forall k :: 0 <= k < |consensus| ==> consensus[k] < eights
    ensures model != 8 ==> |consensus| == 1
  {
    DistinctCardinality(consensus);
    var members := SetOf(consensus);
    assert forall k :: 0 <= k < |consensus| ==> consensus[k] in members;
    if model == 8 {
      assert members == Range(eights);
    } else {
      var i :| 0 <= i < |data| && data[i] == model;
      assert members == {i};
    }
  }

  /**
   * Among trials on mixed data of which one fitted the model 8, the leading trial is one
   * that fitted 8 too, and its chosen model is 8.
   */
  lemma MixedWinner(data: seq<int>, eights: nat, trials: seq<Trial<int>>, winner: nat, j: nat)
    requires Mixed(data, eights)
    requires forall i :: 0 <= i < |trials| ==> IsTrial(IntegerFitter(), data, 0.0, trials[i])
    requires Leads(trials, winner) && j < |trials| && trials[j].model == 8
    ensures AllBelow(trials[winner].consensus, |data|) && Chosen(IntegerFitter(), data, trials[winner]) == 8
  {
    var t := trials[winner];
    TrialConsensus(IntegerFitter(), data, 0.0, trials[j]);
    TrialConsensus(IntegerFitter(), data, 0.0, t);
    TrialAgreement(data, trials[j]);
    TrialAgreement(data, t);
    MixedConsensus(data, eights, trials[j].consensus, 8);
    MixedConsensus(data, eights, t.consensus, t.model);
    assert t.model == 8;
    var inliers := Elements(data, t.consensus);
    assert forall k :: 0 <= k < |inliers| ==> inliers[k] == data[t.consensus[k]] == 8;
    MeanOfEights(inliers);
  }

  /** With a minimal sample size of one, the first sample is the first draw alone. */
  lemma FirstSampleOfOne(draws: seq<nat>)
    requires |draws| > 0
    ensures Samples(1, draws, 0) != [] && Samples(1, draws, 0)[0] == [draws[0]]
  {
    assert draws[0..0] == [];
    assert draws[0..1] == [draws[0]];
    assert [draws[0]][..0] == [];
    assert Dedup([draws[0]]) == [draws[0]];
    assert SampleEnd(1, draws, 0, 0) == 1;
  }

  /** On mixed data, when the first draw is one of the eights, the first trial fits 8. */
  lemma FirstTrialIsEight(c: Config<int, int>, eights: nat, draws: seq<nat>)
    requires c.fitter == IntegerFitter() && Mixed(c.data, eights)
    requires forall k :: 0 <= k < |draws| ==> draws[k] < |c.data|
    requires |draws| > 0 && draws[0] < eights
    ensures TrialsOf(c, Drawn(c, draws)) != [] ==> TrialsOf(c, Drawn(c, draws))[0].model == 8
  {
    var drawn := Drawn(c, draws);
    if TrialsOf(c, drawn) != [] {
      FirstSampleOfOne(draws);
      assert drawn[0] == [draws[0]];
      assert Elements(c.data, [draws[0]]) == [8];
      assert [8][..0] == [];
      assert TrialOf(c, drawn[0]).Some?;
      FirstTrial(c, drawn);
    }
  }

  /**
   * On mixed data, when the first draw is one of the eights, a run under threshold 0 that
   * succeeds gives 8: the first trial fits the model 8, its consensus of all the eights
   * beats every outlier's consensus of one, and the refit on the eights is 8.
   */
  lemma MixedResult(c: Config<int, int>, eights: nat, draws: seq<nat>)
    requires c.fitter == IntegerFitter() && c.threshold == 0.0 && Mixed(c.data, eights)
    requires forall k :: 0 <= k < |draws| ==> draws[k] < |c.data|
    requires |draws| > 0 && draws[0] < eights
    ensures SearchResult(c, Drawn(c, draws)).Ok? ==> SearchResult(c, Drawn(c, draws)).value == 8
  {
    if SearchResult(c, Drawn(c, draws)).Ok? {
      SearchOutcome(c, draws);
      FirstTrialIsEight(c, eights, draws);
      var ts := TrialsOf(c, Drawn(c, draws));
      MixedWinner(c.data, eights, ts, Leader(ts), 0);
    }
  }

  /**
   * The RANSAC unit test's mixed data set: when the first draw is one of the eights, a
   * result is 8. The condition on the first draw cannot be dropped: a sample-count formula
   * may end the run after a single trial on an outlier.
   */
  method MixedInliers(data: seq<int>, ghost eights: nat, draws: seq<nat>, budget: (nat, nat, nat, real) -> int)
    returns (r: Result<int, Failure>)
    requires Mixed(data, eights)
    requires forall k :: 0 <= k < |draws| ==> draws[k] < |data|
    ensures r.Ok? && |draws| > 0 && draws[0] < eights ==> r.value == 8
  {
    var ransac := new Ransac<int, int>(0.0);
    var events;
    r, events := ransac.Perform(IntegerFitter(), data, draws, budget);
    if r.Ok? && |draws| > 0 && draws[0] < eights {
      MixedResult(ransac.Setup(IntegerFitter(), data, budget), eights, draws);
    }
  }
}
