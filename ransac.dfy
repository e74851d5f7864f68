/**
 * RANSAC: repeatedly fit a model to a random minimal sample, grow the sample by every other
 * element within the inlier threshold, and keep the model whose consensus set is largest;
 * the number of successful fits to make is re-estimated whenever the best support grows.
 */
module RansacEstimator {
  import opened Common
  import opened BitSets
  import opened BitSetElementSets
  import opened RobustEstimator
  import opened Sampling

  /** How many times the fitter may fail on a minimal sample before `perform` gives up. */
  const MaxModelFailCount: nat := 1000

  datatype IllegalArgument = IllegalArgument(probability: real)

  /**
   * The indices the consensus scan adds, in the order it adds them: every index from `lo`
   * upwards that is not in the sample and whose error under `model` is within `threshold`.
   */
  function Added<D, M>(fitter: Fitter<D, M>, data: seq<D>, threshold: real, model: M,
                       sample: set<nat>, lo: nat): seq<nat>
    decreases |data| - lo
  {
    if lo >= |data| then []
    else
      (if lo !in sample && fitter.getError(model, data[lo]) <= threshold then [lo] else [])
      + Added(fitter, data, threshold, model, sample, lo + 1)
  }

  /** An index outside the sample is added exactly when its error is within the threshold. */
  lemma AddedAt<D, M>(fitter: Fitter<D, M>, data: seq<D>, threshold: real, model: M,
                      sample: set<nat>, index: nat)
    requires index < |data| && index !in sample
    ensures fitter.getError(model, data[index]) <= threshold ==>
              Added(fitter, data, threshold, model, sample, index)
              == [index] + Added(fitter, data, threshold, model, sample, index + 1)
    ensures fitter.getError(model, data[index]) > threshold ==>
              Added(fitter, data, threshold, model, sample, index)
              == Added(fitter, data, threshold, model, sample, index + 1)
  {
    assert [] + Added(fitter, data, threshold, model, sample, index + 1)
        == Added(fitter, data, threshold, model, sample, index + 1);
  }

  /** Element `i` is a valid index whose error under `model` is within `threshold`. */
  ghost predicate Agrees<D, M>(fitter: Fitter<D, M>, data: seq<D>, threshold: real, model: M, i: nat)
  {
    i < |data| && fitter.getError(model, data[i]) <= threshold
  }

  /** The scan adds indices in ascending order, each at least `lo` and below the data size. */
  lemma {:induction false} AddedAscending<D, M>(fitter: Fitter<D, M>, data: seq<D>,
      threshold: real, model: M, sample: set<nat>, lo: nat)
    ensures StrictlyIncreasing(Added(fitter, data, threshold, model, sample, lo))
    ensures forall k :: 0 <= k < |Added(fitter, data, threshold, model, sample, lo)| ==>
              lo <= Added(fitter, data, threshold, model, sample, lo)[k] < |data|
    decreases |data| - lo
  {
    if lo < |data| {
      AddedAscending(fitter, data, threshold, model, sample, lo + 1);
      var rest := Added(fitter, data, threshold, model, sample, lo + 1);
      if lo !in sample && fitter.getError(model, data[lo]) <= threshold {
        assert [lo] + rest == Added(fitter, data, threshold, model, sample, lo);
        PrependBelow(lo, rest, |data|);
      } else {
        assert rest == Added(fitter, data, threshold, model, sample, lo);
      }
    }
  }

  /** An index below every element of an increasing list, put in front, keeps it increasing. */
  lemma PrependBelow(x: nat, rest: seq<nat>, n: nat)
    requires x < n && StrictlyIncreasing(rest)
    requires forall k :: 0 <= k < |rest| ==> x + 1 <= rest[k] < n
    ensures StrictlyIncreasing([x] + rest)
    ensures forall k :: 0 <= k < |[x] + rest| ==> x <= ([x] + rest)[k] < n
  {
    var a := [x] + rest;
    assert forall k :: 1 <= k < |a| ==> a[k] == rest[k - 1];
  }

  /** The scan adds exactly the agreeing indices from `lo` up that are outside the sample. */
  lemma {:induction false} AddedMembers<D, M>(fitter: Fitter<D, M>, data: seq<D>,
      threshold: real, model: M, sample: set<nat>, lo: nat)
    ensures forall i: nat :: i in Added(fitter, data, threshold, model, sample, lo) <==>
              lo <= i && i !in sample && Agrees(fitter, data, threshold, model, i)
    decreases |data| - lo
  {
    if lo < |data| {
      AddedMembers(fitter, data, threshold, model, sample, lo + 1);
    }
  }

  /**
   * The scan visits every index from `lo` up once, in ascending order, and adds exactly the
   * agreeing ones outside the sample.
   */
  lemma AddedIsAscendingInliers<D, M>(fitter: Fitter<D, M>, data: seq<D>,
      threshold: real, model: M, sample: set<nat>, lo: nat)
    ensures var a := Added(fitter, data, threshold, model, sample, lo);
      && StrictlyIncreasing(a)
      && AllBelow(a, |data|)
      && forall i: nat :: i in a <==> lo <= i && i !in sample && Agrees(fitter, data, threshold, model, i)
  {
    AddedAscending(fitter, data, threshold, model, sample, lo);
    AddedMembers(fitter, data, threshold, model, sample, lo);
  }

  /** Indices that are all in the sample can be skipped without changing what the scan adds. */
  lemma {:induction false} AddedSkipsSample<D, M>(fitter: Fitter<D, M>, data: seq<D>,
      threshold: real, model: M, sample: set<nat>, lo: nat, hi: nat)
    requires lo <= hi
    requires forall j :: lo <= j < hi ==> j in sample
    ensures Added(fitter, data, threshold, model, sample, lo)
         == Added(fitter, data, threshold, model, sample, hi)
    decreases hi - lo
  {
    if lo < hi && lo < |data| {
      AddedSkipsSample(fitter, data, threshold, model, sample, lo + 1, hi);
    } else if lo < hi {
      AddedSkipsSample(fitter, data, threshold, model, sample, lo + 1, hi);
    }
  }

  /** One successful fit: its minimal sample, the model fitted to it, and its consensus list. */
  datatype Trial<M> = Trial(sample: seq<nat>, model: M, consensus: seq<nat>)

  /**
   * `t` is a trial the loop can make: a sample of `m` distinct valid indices that the fitter
   * turns into `t.model`, grown by the consensus scan.
   */
  ghost predicate IsTrial<D, M>(fitter: Fitter<D, M>, data: seq<D>, threshold: real, t: Trial<M>)
  {
    && |t.sample| == fitter.minimalDataSetSize && Distinct(t.sample) && AllBelow(t.sample, |data|)
    && fitter.computeModel(Elements(data, t.sample)) == Some(t.model)
    && t.consensus == t.sample + Added(fitter, data, threshold, t.model, SetOf(t.sample), 0)
    && AllBelow(t.consensus, |data|)
  }

  /**
   * The model a trial contributes when it improves the best support: the refit on its whole
   * consensus list when that is larger than a minimal sample, falling back to the sample's
   * model when the refit fails; the sample's model itself otherwise.
   */
  function Chosen<D, M>(fitter: Fitter<D, M>, data: seq<D>, t: Trial<M>): M
    requires AllBelow(t.consensus, |data|)
  {
    if |t.consensus| > fitter.minimalDataSetSize then
      match fitter.computeModel(Elements(data, t.consensus))
      case Some(refit) => refit
      case None => t.model
    else t.model
  }

  /**
   * A trial's consensus is its sample together with the agreeing elements outside it, each
   * once: it contains the sample, its support is its size, and it is no larger than the data.
   */
  lemma TrialConsensus<D, M>(fitter: Fitter<D, M>, data: seq<D>, threshold: real, t: Trial<M>)
    requires IsTrial(fitter, data, threshold, t)
    ensures forall i: nat :: i in t.consensus <==> i in t.sample || Agrees(fitter, data, threshold, t.model, i)
    ensures SetOf(t.sample) <= SetOf(t.consensus)
    ensures Distinct(t.consensus) && |SetOf(t.consensus)| == |t.consensus|
    ensures fitter.minimalDataSetSize <= |t.consensus| <= |data|
  {
    var added := Added(fitter, data, threshold, t.model, SetOf(t.sample), 0);
    AddedIsAscendingInliers(fitter, data, threshold, t.model, SetOf(t.sample), 0);
    forall i: nat
      ensures i in t.consensus <==> i in t.sample || i in added
    {
      assert i in t.consensus <==> i in t.sample || i in added;
    }
    assert Distinct(t.consensus) by {
      forall i, j | 0 <= i < j < |t.consensus|
        ensures t.consensus[i] != t.consensus[j]
      {
        if j >= |t.sample| && i < |t.sample| {
          assert t.consensus[i] in t.sample;
          assert t.consensus[j] == added[j - |t.sample|];
          assert added[j - |t.sample|] in added;
        } else if j >= |t.sample| {
          assert t.consensus[i] == added[i - |t.sample|];
          assert t.consensus[j] == added[j - |t.sample|];
        }
      }
    }
    DistinctCardinality(t.consensus);
    assert SetOf(t.consensus) <= Range(|data|);
    SubsetCardinality(SetOf(t.consensus), Range(|data|));
  }

  lemma SubsetCardinality(a: set<nat>, b: set<nat>)
    requires a <= b
    ensures |a| <= |b|
  {
    assert b == a + (b - a);
  }

  /**
   * The consensus scan: starting after index -1, jump to the next clear bit of the mask;
   * stop past the data; add the index when its error is within the threshold. It appends
   * exactly `Added(..)` to the list, ascending, and sets the same bits in the mask.
   */
  method ScanInliers<D, M>(fitter: Fitter<D, M>, data: seq<D>, threshold: real, model: M,
                           order: seq<nat>, mask: set<nat>)
    returns (grown: seq<nat>, grownMask: set<nat>)
    requires mask == SetOf(order)
    ensures grown == order + Added(fitter, data, threshold, model, mask, 0)
    ensures grownMask == SetOf(grown)
  {
    grown, grownMask := order, mask;
    var index: int := -1;
    while true
      invariant -1 <= index < |data|
      invariant grown + Added(fitter, data, threshold, model, mask, index + 1)
             == order + Added(fitter, data, threshold, model, mask, 0)
      invariant grownMask == SetOf(grown)
      invariant forall j: nat :: j > index ==> (j in grownMask <==> j in mask)
      decreases |data| - index
    {
      var from := index + 1;
      index := NextClearBit(grownMask, from);
      AddedSkipsSample(fitter, data, threshold, model, mask, from, index);
      if index >= |data| {
        break;
      }
      assert index !in mask;
      ghost var rest := Added(fitter, data, threshold, model, mask, index + 1);
      AddedAt(fitter, data, threshold, model, mask, index);
      if fitter.getError(model, data[index]) <= threshold {
        assert grown + ([index] + rest) == (grown + [index]) + rest;
        assert SetOf(grown + [index]) == SetOf(grown) + {index};
        grown := grown + [index];
        grownMask := grownMask + {index};
      }
    }
  }

  /**
   * Trial `winner` has the largest consensus of all `trials`, and strictly larger than every
   * trial before it: the first trial to reach the maximum.
   */
  ghost predicate Leads<M>(trials: seq<Trial<M>>, winner: nat)
  {
    && winner < |trials|
    && (forall j :: 0 <= j < |trials| ==> |trials[j].consensus| <= |trials[winner].consensus|)
    && (forall j :: 0 <= j < winner ==> |trials[j].consensus| < |trials[winner].consensus|)
  }

  /**
   * Appending a trial keeps the leader unless the new trial's consensus is strictly larger,
   * in which case the new trial leads.
   */
  lemma LeadsAppend<M>(trials: seq<Trial<M>>, winner: nat, t: Trial<M>)
    requires trials == [] || Leads(trials, winner)
    ensures trials != [] && |t.consensus| <= |trials[winner].consensus| ==> Leads(trials + [t], winner)
    ensures trials == [] || |t.consensus| > |trials[winner].consensus| ==> Leads(trials + [t], |trials|)
  {
    var grown := trials + [t];
    assert grown[|trials|] == t;
    assert forall j :: 0 <= j < |trials| ==> grown[j] == trials[j];
  }

  /**
   * The consensus of a sample that the fitter turned into `model`: the scan's list and mask,
   * together with the trial they make.
   */
  method Consensus<D, M>(fitter: Fitter<D, M>, data: seq<D>, threshold: real,
                         order: seq<nat>, mask: set<nat>, model: M)
    returns (consensus: seq<nat>, consensusMask: set<nat>, ghost t: Trial<M>)
    requires |order| == fitter.minimalDataSetSize && Distinct(order) && AllBelow(order, |data|)
    requires mask == SetOf(order)
    requires fitter.computeModel(Elements(data, order)) == Some(model)
    ensures t == Trial(order, model, consensus) && IsTrial(fitter, data, threshold, t)
    ensures consensusMask == SetOf(consensus)
    ensures fitter.minimalDataSetSize <= |consensus| <= |data|
  {
    consensus, consensusMask := ScanInliers(fitter, data, threshold, model, order, mask);
    t := Trial(order, model, consensus);
    AddedIsAscendingInliers(fitter, data, threshold, model, mask, 0);
    assert IsTrial(fitter, data, threshold, t);
    TrialConsensus(fitter, data, threshold, t);
  }

  /**
   * What a run of the sampling loop depends on besides the draws: the fitter, the data, the
   * inlier threshold, the success probability, and the sample-count formula.
   */
  datatype Config<!D, !M> = Config(fitter: Fitter<D, M>, data: seq<D>, threshold: real,
                                   probability: real, budget: (nat, nat, nat, real) -> int)

  /** The samples of an admissible run: `m` distinct valid indices each, with `1 <= m`. */
  predicate Admissible<D, M>(c: Config<D, M>, samples: seq<seq<nat>>)
  {
    1 <= c.fitter.minimalDataSetSize && MinimalSamples(samples, |c.data|, c.fitter.minimalDataSetSize)
  }

  /** The trial a sample makes: none when the fitter gives no model for its elements. */
  function TrialOf<D, M>(c: Config<D, M>, sample: seq<nat>): (t: Option<Trial<M>>)
    requires AllBelow(sample, |c.data|)
    ensures t.Some? ==> t.value.sample == sample && AllBelow(t.value.consensus, |c.data|)
  {
    match c.fitter.computeModel(Elements(c.data, sample))
    case None => None
    case Some(model) =>
      var added := Added(c.fitter, c.data, c.threshold, model, SetOf(sample), 0);
      AddedIsAscendingInliers(c.fitter, c.data, c.threshold, model, SetOf(sample), 0);
      AllBelowConcat(sample, added, |c.data|);
      Some(Trial(sample, model, sample + added))
  }

  /** The trials the samples make, in the order drawn. */
  function TrialsOf<D, M>(c: Config<D, M>, samples: seq<seq<nat>>): (ts: seq<Trial<M>>)
    requires Admissible(c, samples)
    ensures |ts| <= |samples|
    ensures forall j :: 0 <= j < |ts| ==> AllBelow(ts[j].consensus, |c.data|)
  {
    if samples == [] then []
    else
      var init := samples[..|samples| - 1];
      match TrialOf(c, samples[|samples| - 1])
      case None => TrialsOf(c, init)
      case Some(t) => TrialsOf(c, init) + [t]
  }

  /** How many of the samples the fitter gives no model for. */
  function FailuresOf<D, M>(c: Config<D, M>, samples: seq<seq<nat>>): nat
    requires Admissible(c, samples)
  {
    if samples == [] then 0
    else
      FailuresOf(c, samples[..|samples| - 1])
      + if TrialOf(c, samples[|samples| - 1]).None? then 1 else 0
  }

  /**
   * The trial whose model the loop keeps: a later trial replaces the kept one only when its
   * consensus is strictly larger.
   */
  function Leader<M>(ts: seq<Trial<M>>): (w: nat)
    requires ts != []
    ensures w < |ts|
  {
    if |ts| == 1 then 0
    else
      var w := Leader(ts[..|ts| - 1]);
      if |ts[|ts| - 1].consensus| > |ts[w].consensus| then |ts| - 1 else w
  }

  /** The kept trial is the first to reach the largest consensus. */
  lemma {:induction false} LeaderLeads<M>(ts: seq<Trial<M>>)
    requires ts != []
    ensures Leads(ts, Leader(ts))
  {
    var init, t := ts[..|ts| - 1], ts[|ts| - 1];
    assert init + [t] == ts;
    if |ts| > 1 {
      LeaderLeads(init);
      LeadsAppend(init, Leader(init), t);
    } else {
      LeadsAppend(init, 0, t);
    }
  }

  /**
   * The loop's `iterationCount` after these trials: 1 before the first, afterwards the
   * formula evaluated at the kept trial's support.
   */
  function IterationCount<D, M>(c: Config<D, M>, ts: seq<Trial<M>>): int
  {
    if ts == [] then 1
    else c.budget(|ts[Leader(ts)].consensus|, |c.data|, c.fitter.minimalDataSetSize, c.probability)
  }

  /**
   * After these samples the loop draws another: it has made fewer trials than its current
   * count, and the fitter has failed fewer than 1000 times.
   */
  predicate GoesOn<D, M>(c: Config<D, M>, samples: seq<seq<nat>>)
    requires Admissible(c, samples)
  {
    |TrialsOf(c, samples)| < IterationCount(c, TrialsOf(c, samples))
    && FailuresOf(c, samples) < MaxModelFailCount
  }

  /** A prefix of admissible samples is admissible. */
  lemma AdmissiblePrefix<D, M>(c: Config<D, M>, samples: seq<seq<nat>>, k: nat)
    requires Admissible(c, samples) && k <= |samples|
    ensures Admissible(c, samples[..k])
  {
    assert forall j :: 0 <= j < k ==> samples[..k][j] == samples[j];
  }

  /** The loop goes on after the first `k` of the samples. */
  predicate GoesOnAfter<D, M>(c: Config<D, M>, samples: seq<seq<nat>>, k: nat)
    requires Admissible(c, samples) && k <= |samples|
  {
    AdmissiblePrefix(c, samples, k);
    GoesOn(c, samples[..k])
  }

  /**
   * How many of `samples` the loop takes, having taken the first `k`: it goes on until it
   * stops or the samples run out.
   */
  function Used<D, M>(c: Config<D, M>, samples: seq<seq<nat>>, k: nat): (u: nat)
    requires Admissible(c, samples) && k <= |samples|
    ensures k <= u <= |samples|
    decreases |samples| - k
  {
    if k == |samples| || !GoesOnAfter(c, samples, k) then k else Used(c, samples, k + 1)
  }

  /**
   * The loop goes on after every shorter prefix of the samples it takes, and stops after
   * the last one unless the samples ran out.
   */
  lemma {:induction false} UsedIsFirstStop<D, M>(c: Config<D, M>, samples: seq<seq<nat>>, k: nat)
    requires Admissible(c, samples) && k <= |samples|
    requires forall j :: 0 <= j < k ==> GoesOnAfter(c, samples, j)
    ensures forall j :: 0 <= j < Used(c, samples, k) ==> GoesOnAfter(c, samples, j)
    ensures Used(c, samples, k) == |samples| || !GoesOnAfter(c, samples, Used(c, samples, k))
    decreases |samples| - k
  {
    if k < |samples| && GoesOnAfter(c, samples, k) {
      assert Used(c, samples, k) == Used(c, samples, k + 1);
      UsedIsFirstStop(c, samples, k + 1);
    } else {
      assert Used(c, samples, k) == k;
    }
  }

  /** The samples a run over `draws` takes: the successive samples, up to where the loop stops. */
  function Drawn<D, M>(c: Config<D, M>, draws: seq<nat>): (drawn: seq<seq<nat>>)
    requires 1 <= c.fitter.minimalDataSetSize
    requires forall k :: 0 <= k < |draws| ==> draws[k] < |c.data|
    ensures Admissible(c, drawn)
    ensures drawn <= Samples(c.fitter.minimalDataSetSize, draws, 0)
  {
    var all := Samples(c.fitter.minimalDataSetSize, draws, 0);
    SamplesValid(|c.data|, c.fitter.minimalDataSetSize, draws, 0);
    all[..Used(c, all, 0)]
  }

  /**
   * The outcome of the loop after taking `drawn`: the fit-failure limit once the fitter has
   * failed 1000 times; exhausted draws while the count asks for more trials; otherwise the
   * kept trial's chosen model.
   */
  function SearchResult<D, M>(c: Config<D, M>, drawn: seq<seq<nat>>): Result<M, Failure>
    requires Admissible(c, drawn)
  {
    var ts := TrialsOf(c, drawn);
    if FailuresOf(c, drawn) >= MaxModelFailCount then Err(FitFailureLimit)
    else if |ts| < IterationCount(c, ts) then Err(RandomStreamExhausted)
    else Ok(Chosen(c.fitter, c.data, ts[Leader(ts)]))
  }

  /** Every trial the samples make is a trial the loop can make. */
  lemma {:induction false} TrialsAreTrials<D, M>(c: Config<D, M>, samples: seq<seq<nat>>)
    requires Admissible(c, samples)
    ensures forall j :: 0 <= j < |TrialsOf(c, samples)| ==>
              IsTrial(c.fitter, c.data, c.threshold, TrialsOf(c, samples)[j])
  {
    if samples != [] {
      var init, s := samples[..|samples| - 1], samples[|samples| - 1];
      TrialsAreTrials(c, init);
      if TrialOf(c, s).Some? {
        var model := c.fitter.computeModel(Elements(c.data, s)).value;
        AddedIsAscendingInliers(c.fitter, c.data, c.threshold, model, SetOf(s), 0);
        assert IsTrial(c.fitter, c.data, c.threshold, TrialOf(c, s).value);
      }
    }
  }

  /** When the first sample fits, the first trial is that sample's. */
  lemma {:induction false} FirstTrial<D, M>(c: Config<D, M>, samples: seq<seq<nat>>)
    requires Admissible(c, samples) && samples != [] && TrialOf(c, samples[0]).Some?
    ensures TrialsOf(c, samples) != [] && TrialsOf(c, samples)[0] == TrialOf(c, samples[0]).value
  {
    if |samples| > 1 {
      var init := samples[..|samples| - 1];
      assert init[0] == samples[0];
      FirstTrial(c, init);
    }
  }

  /**
   * The loop went on after all but the last sample it takes, and stops after the last one
   * unless the draws hold no further sample.
   */
  lemma DrawnStopped<D, M>(c: Config<D, M>, draws: seq<nat>)
    requires 1 <= c.fitter.minimalDataSetSize
    requires forall k :: 0 <= k < |draws| ==> draws[k] < |c.data|
    ensures Drawn(c, draws) == Samples(c.fitter.minimalDataSetSize, draws, 0) || !GoesOn(c, Drawn(c, draws))
    ensures Drawn(c, draws) != [] ==> GoesOn(c, Drawn(c, draws)[..|Drawn(c, draws)| - 1])
  {
    var all := Samples(c.fitter.minimalDataSetSize, draws, 0);
    SamplesValid(|c.data|, c.fitter.minimalDataSetSize, draws, 0);
    UsedStops(c, all);
  }

  /** The prefix of the samples the loop takes stops it, or is all of them, and went on before its last sample. */
  lemma UsedStops<D, M>(c: Config<D, M>, all: seq<seq<nat>>)
    requires Admissible(c, all)
    ensures all[..Used(c, all, 0)] == all || !GoesOn(c, all[..Used(c, all, 0)])
    ensures Used(c, all, 0) > 0 ==> GoesOn(c, all[..Used(c, all, 0)][..Used(c, all, 0) - 1])
  {
    UsedIsFirstStop(c, all, 0);
    var u := Used(c, all, 0);
    var drawn := all[..u];
    if u == |all| {
      assert drawn == all;
    } else {
      assert !GoesOnAfter(c, all, u);
    }
    if u > 0 {
      assert GoesOnAfter(c, all, u - 1);
      assert drawn[..u - 1] == all[..u - 1];
    }
  }

  /**
   * The fitter fails at most 1000 times in a run, and the fit-failure limit is reported
   * exactly when it failed 1000 times.
   */
  lemma SearchFailures<D, M>(c: Config<D, M>, draws: seq<nat>)
    requires 1 <= c.fitter.minimalDataSetSize
    requires forall k :: 0 <= k < |draws| ==> draws[k] < |c.data|
    ensures FailuresOf(c, Drawn(c, draws)) <= MaxModelFailCount
    ensures SearchResult(c, Drawn(c, draws)) == Err(FitFailureLimit)
            <==> FailuresOf(c, Drawn(c, draws)) == MaxModelFailCount
  {
    DrawnStopped(c, draws);
  }

  /**
   * What the other outcomes of a run mean. Exhausted draws mean every sample the draws
   * hold was taken. Success comes after at least as many trials as the count computed at
   * the kept trial, which is the first to reach the largest consensus. Every trial made is
   * a trial the loop can make.
   */
  lemma SearchOutcome<D, M>(c: Config<D, M>, draws: seq<nat>)
    requires 1 <= c.fitter.minimalDataSetSize
    requires forall k :: 0 <= k < |draws| ==> draws[k] < |c.data|
    ensures SearchResult(c, Drawn(c, draws)) == Err(RandomStreamExhausted)
            ==> Drawn(c, draws) == Samples(c.fitter.minimalDataSetSize, draws, 0)
    ensures SearchResult(c, Drawn(c, draws)).Ok? ==>
              && TrialsOf(c, Drawn(c, draws)) != []
              && Leads(TrialsOf(c, Drawn(c, draws)), Leader(TrialsOf(c, Drawn(c, draws))))
              && |TrialsOf(c, Drawn(c, draws))| >= IterationCount(c, TrialsOf(c, Drawn(c, draws)))
    ensures forall j :: 0 <= j < |TrialsOf(c, Drawn(c, draws))| ==>
              IsTrial(c.fitter, c.data, c.threshold, TrialsOf(c, Drawn(c, draws))[j])
  {
    DrawnStopped(c, draws);
    var ts := TrialsOf(c, Drawn(c, draws));
    if ts != [] {
      LeaderLeads(ts);
    }
    TrialsAreTrials(c, Drawn(c, draws));
  }

  /** Appending a trial makes it the kept one exactly when its consensus is strictly larger. */
  lemma LeaderStep<M>(ts: seq<Trial<M>>, t: Trial<M>)
    ensures Leader(ts + [t]) ==
              if ts == [] || |t.consensus| > |ts[Leader(ts)].consensus| then |ts| else Leader(ts)
  {
    assert (ts + [t])[..|ts|] == ts;
  }

  /**
   * The loop has taken the samples `drawn` and reads on from position `pos`: the samples
   * the rest of the draws hold follow them, and the loop goes on as far as after them.
   */
  ghost predicate Taken<D, M>(c: Config<D, M>, draws: seq<nat>, pos: nat, drawn: seq<seq<nat>>)
  {
    && 1 <= c.fitter.minimalDataSetSize && pos <= |draws|
    && (forall k :: 0 <= k < |draws| ==> draws[k] < |c.data|)
    && Samples(c.fitter.minimalDataSetSize, draws, 0) == drawn + Samples(c.fitter.minimalDataSetSize, draws, pos)
    && Admissible(c, drawn) && Admissible(c, Samples(c.fitter.minimalDataSetSize, draws, 0))
    && Used(c, Samples(c.fitter.minimalDataSetSize, draws, 0), 0)
       == Used(c, Samples(c.fitter.minimalDataSetSize, draws, 0), |drawn|)
  }

  /** Before the first draw nothing is taken. */
  lemma TakenStart<D, M>(c: Config<D, M>, draws: seq<nat>)
    requires 1 <= c.fitter.minimalDataSetSize
    requires forall k :: 0 <= k < |draws| ==> draws[k] < |c.data|
    ensures Taken(c, draws, 0, [])
  {
    SamplesValid(|c.data|, c.fitter.minimalDataSetSize, draws, 0);
  }

  /**
   * Where the loop goes on after the samples taken so far, it takes the next sample,
   * which adds a failure or a trial.
   */
  lemma TakenStep<D, M>(c: Config<D, M>, draws: seq<nat>, pos: nat, drawn: seq<seq<nat>>,
                        sample: seq<nat>, next: nat)
    requires Taken(c, draws, pos, drawn) && GoesOn(c, drawn)
    requires pos <= |draws|
    requires next == SampleEnd(c.fitter.minimalDataSetSize, draws, pos, pos)
    requires sample == Dedup(draws[pos..next]) && |sample| == c.fitter.minimalDataSetSize
    ensures Taken(c, draws, next, drawn + [sample])
    ensures AllBelow(sample, |c.data|)
    ensures FailuresOf(c, drawn + [sample]) == FailuresOf(c, drawn) + if TrialOf(c, sample).None? then 1 else 0
    ensures TrialsOf(c, drawn + [sample])
            == TrialsOf(c, drawn) + if TrialOf(c, sample).None? then [] else [TrialOf(c, sample).value]
  {
    var m := c.fitter.minimalDataSetSize;
    var all := Samples(m, draws, 0);
    SamplesFirst(m, draws, pos, sample, next);
    TakeSample(all, drawn, sample, Samples(m, draws, pos), Samples(m, draws, next));
    assert all[|drawn|] == sample;
    FailuresStep(c, drawn, sample);
  }

  /**
   * The loop has taken exactly `drawn` once it stops after them, or once the draws hold no
   * further sample.
   */
  lemma TakenStops<D, M>(c: Config<D, M>, draws: seq<nat>, pos: nat, drawn: seq<seq<nat>>)
    requires Taken(c, draws, pos, drawn)
    requires Samples(c.fitter.minimalDataSetSize, draws, pos) == [] || !GoesOn(c, drawn)
    ensures Drawn(c, draws) == drawn
  {
    var all := Samples(c.fitter.minimalDataSetSize, draws, 0);
    assert all[..|drawn|] == drawn;
  }

  /**
   * How the loop ends: on a failure it was stopped by, or with the best record once the
   * count is reached; either way it has taken exactly the samples a run takes.
   */
  lemma Concludes<D, M>(c: Config<D, M>, draws: seq<nat>, pos: nat, drawn: seq<seq<nat>>,
                        winner: nat, bestModel: Option<M>, bestModelSupport: nat,
                        bestModelInliers: set<nat>, iterationCount: int, failure: Option<Failure>)
    requires Taken(c, draws, pos, drawn)
    requires KeepsBest(c, TrialsOf(c, drawn), winner, bestModel, bestModelSupport, bestModelInliers, iterationCount)
    requires failure.None? || failure == Some(FitFailureLimit) || failure == Some(RandomStreamExhausted)
    requires failure != Some(FitFailureLimit) ==> FailuresOf(c, drawn) < MaxModelFailCount
    requires failure == Some(FitFailureLimit) ==> FailuresOf(c, drawn) == MaxModelFailCount
    requires failure == Some(RandomStreamExhausted) ==>
               |TrialsOf(c, drawn)| < iterationCount && Samples(c.fitter.minimalDataSetSize, draws, pos) == []
    requires failure.None? ==> |TrialsOf(c, drawn)| >= iterationCount
    ensures Drawn(c, draws) == drawn
    ensures failure.Some? ==> SearchResult(c, drawn) == Err(failure.value)
    ensures failure.None? ==>
              && TrialsOf(c, drawn) != [] && bestModel.Some?
              && SearchResult(c, drawn) == Ok(bestModel.value)
              && bestModelSupport == |TrialsOf(c, drawn)[Leader(TrialsOf(c, drawn))].consensus|
              && bestModelInliers == SetOf(TrialsOf(c, drawn)[Leader(TrialsOf(c, drawn))].consensus)
  {
    TakenStops(c, draws, pos, drawn);
  }

  /** A sample adds one failure when the fitter gives no model for it, none otherwise. */
  lemma FailuresStep<D, M>(c: Config<D, M>, drawn: seq<seq<nat>>, s: seq<nat>)
    requires Admissible(c, drawn)
    requires |s| == c.fitter.minimalDataSetSize && Distinct(s) && AllBelow(s, |c.data|)
    ensures Admissible(c, drawn + [s])
    ensures FailuresOf(c, drawn + [s]) == FailuresOf(c, drawn) + if TrialOf(c, s).None? then 1 else 0
    ensures TrialsOf(c, drawn + [s]) == TrialsOf(c, drawn) + if TrialOf(c, s).None? then [] else [TrialOf(c, s).value]
  {
    assert (drawn + [s])[..|drawn|] == drawn;
    assert (drawn + [s])[|drawn|] == s;
    assert forall j :: 0 <= j < |drawn| ==> drawn[j] == (drawn + [s])[j];
  }

  /**
   * The loop's record of the best trial so far agrees with the trials made: the count to
   * reach, and once a trial was made, the kept trial with its chosen model, support and
   * inlier set.
   */
  ghost predicate KeepsBest<D, M>(c: Config<D, M>, trials: seq<Trial<M>>, winner: nat,
                                  bestModel: Option<M>, bestModelSupport: nat,
                                  bestModelInliers: set<nat>, iterationCount: int)
  {
    && iterationCount == IterationCount(c, trials)
    && (trials == [] ==> bestModelSupport == 0)
    && (trials != [] ==>
          && winner == Leader(trials)
          && AllBelow(trials[winner].consensus, |c.data|)
          && bestModel == Some(Chosen(c.fitter, c.data, trials[winner]))
          && bestModelSupport == |trials[winner].consensus|
          && bestModelInliers == SetOf(trials[winner].consensus))
  }

  /**
   * The bookkeeping after a successful fit: a consensus strictly larger than the best so
   * far makes the trial's chosen model the best (the refit on the consensus when that is
   * larger than a minimal sample and the refit succeeds, the sample's model otherwise),
   * records its support and inlier set, and re-estimates the count.
   */
  method Improve<D, M>(c: Config<D, M>, consensus: seq<nat>, consensusMask: set<nat>, model: M,
                       ghost t: Trial<M>, ghost trials: seq<Trial<M>>, ghost winner: nat,
                       bestModel: Option<M>, bestModelSupport: nat,
                       bestModelInliers: set<nat>, iterationCount: int)
    returns (bestModel': Option<M>, bestModelSupport': nat,
             bestModelInliers': set<nat>, iterationCount': int, ghost winner': nat)
    requires t.consensus == consensus && t.model == model && AllBelow(consensus, |c.data|)
    requires 1 <= c.fitter.minimalDataSetSize <= |consensus|
    requires consensusMask == SetOf(consensus)
    requires KeepsBest(c, trials, winner, bestModel, bestModelSupport, bestModelInliers, iterationCount)
    ensures KeepsBest(c, trials + [t], winner', bestModel', bestModelSupport', bestModelInliers', iterationCount')
  {
    bestModel', bestModelSupport', bestModelInliers', iterationCount', winner' :=
      bestModel, bestModelSupport, bestModelInliers, iterationCount, winner;
    LeaderStep(trials, t);
    assert (trials + [t])[|trials|] == t;
    assert trials != [] ==> (trials + [t])[winner] == trials[winner];
    if |consensus| > bestModelSupport {
      if |consensus| > c.fitter.minimalDataSetSize {
        bestModel' := c.fitter.computeModel(Elements(c.data, consensus));
        if bestModel'.None? {
          bestModel' := Some(model);
        }
      } else {
        bestModel' := Some(model);
      }
      bestModelSupport' := |consensus|;
      bestModelInliers' := consensusMask;
      winner' := |trials|;
      iterationCount' := c.budget(bestModelSupport', |c.data|, c.fitter.minimalDataSetSize, c.probability);
    }
  }

  /**
   * The loop's state between iterations, the samples `drawn` taken from the draws up to
   * `pos`: the fit failures are those of `drawn`, below the limit, `iteration` counts their
   * trials, and the record of the best trial agrees with the trials.
   */
  ghost predicate Running<D, M>(c: Config<D, M>, draws: seq<nat>, pos: nat, drawn: seq<seq<nat>>,
                                modelFailCount: nat, iteration: nat, winner: nat, bestModel: Option<M>,
                                bestModelSupport: nat, bestModelInliers: set<nat>, iterationCount: int)
  {
    && Taken(c, draws, pos, drawn)
    && modelFailCount == FailuresOf(c, drawn) < MaxModelFailCount
    && iteration == |TrialsOf(c, drawn)|
    && KeepsBest(c, TrialsOf(c, drawn), winner, bestModel, bestModelSupport, bestModelInliers, iterationCount)
  }

  /**
   * A sample the fitter gives no model for: it is taken, counted as one more failure, and
   * leaves the record of the best trial as it was; below the limit the loop's state holds
   * again after it.
   */
  lemma FailedFit<D, M>(c: Config<D, M>, draws: seq<nat>, pos: nat, drawn: seq<seq<nat>>,
                        modelFailCount: nat, iteration: nat, winner: nat, bestModel: Option<M>,
                        bestModelSupport: nat, bestModelInliers: set<nat>, iterationCount: int,
                        sample: seq<nat>, next: nat)
    requires Running(c, draws, pos, drawn, modelFailCount, iteration, winner,
                     bestModel, bestModelSupport, bestModelInliers, iterationCount)
    requires iteration < iterationCount
    requires next == SampleEnd(c.fitter.minimalDataSetSize, draws, pos, pos)
    requires sample == Dedup(draws[pos..next]) && |sample| == c.fitter.minimalDataSetSize
    requires AllBelow(sample, |c.data|) && c.fitter.computeModel(Elements(c.data, sample)).None?
    ensures Taken(c, draws, next, drawn + [sample])
    ensures FailuresOf(c, drawn + [sample]) == modelFailCount + 1
    ensures KeepsBest(c, TrialsOf(c, drawn + [sample]), winner, bestModel, bestModelSupport, bestModelInliers, iterationCount)
    ensures modelFailCount + 1 < MaxModelFailCount ==>
              Running(c, draws, next, drawn + [sample], modelFailCount + 1, iteration, winner,
                      bestModel, bestModelSupport, bestModelInliers, iterationCount)
  {
    TakenStep(c, draws, pos, drawn, sample, next);
    assert TrialOf(c, sample).None?;
    assert TrialsOf(c, drawn + [sample]) == TrialsOf(c, drawn) + [];
  }

  /**
   * A sample that makes the trial `t`: it is taken, the trial joins the trials, and the
   * record `Improve` kept for them makes the loop's state hold again after it.
   */
  lemma FittedTrial<D, M>(c: Config<D, M>, draws: seq<nat>, pos: nat, drawn: seq<seq<nat>>,
                          modelFailCount: nat, iteration: nat, winner: nat, bestModel: Option<M>,
                          bestModelSupport: nat, bestModelInliers: set<nat>, iterationCount: int,
                          sample: seq<nat>, next: nat, t: Trial<M>,
                          winner': nat, bestModel': Option<M>, bestModelSupport': nat,
                          bestModelInliers': set<nat>, iterationCount': int)
    requires Running(c, draws, pos, drawn, modelFailCount, iteration, winner,
                     bestModel, bestModelSupport, bestModelInliers, iterationCount)
    requires iteration < iterationCount
    requires next == SampleEnd(c.fitter.minimalDataSetSize, draws, pos, pos)
    requires sample == Dedup(draws[pos..next]) && |sample| == c.fitter.minimalDataSetSize
    requires AllBelow(sample, |c.data|) && TrialOf(c, sample) == Some(t)
    requires KeepsBest(c, TrialsOf(c, drawn) + [t], winner', bestModel', bestModelSupport', bestModelInliers', iterationCount')
    ensures Running(c, draws, next, drawn + [sample], modelFailCount, iteration + 1, winner',
                    bestModel', bestModelSupport', bestModelInliers', iterationCount')
  {
    TakenStep(c, draws, pos, drawn, sample, next);
  }

  /**
   * One iteration of the sampling loop: draw a minimal sample, count a fit failure or make
   * a trial and keep the best. `failure` is the exception the iteration throws, if any;
   * without one the loop's state holds again, further along the draws.
   */
  method Iterate<D, M>(c: Config<D, M>, draws: seq<nat>, pos: nat, ghost drawn: seq<seq<nat>>,
                       modelFailCount: nat, iteration: nat, ghost winner: nat, bestModel: Option<M>,
                       bestModelSupport: nat, bestModelInliers: set<nat>, iterationCount: int)
    returns (failure: Option<Failure>, pos': nat, ghost drawn': seq<seq<nat>>,
             modelFailCount': nat, iteration': nat, ghost winner': nat, bestModel': Option<M>,
             bestModelSupport': nat, bestModelInliers': set<nat>, iterationCount': int)
    requires Running(c, draws, pos, drawn, modelFailCount, iteration, winner,
                     bestModel, bestModelSupport, bestModelInliers, iterationCount)
    requires iteration < iterationCount
    ensures Taken(c, draws, pos', drawn')
    ensures KeepsBest(c, TrialsOf(c, drawn'), winner', bestModel', bestModelSupport', bestModelInliers', iterationCount')
    ensures failure.None? || failure == Some(FitFailureLimit) || failure == Some(RandomStreamExhausted)
    ensures failure != Some(FitFailureLimit) ==> FailuresOf(c, drawn') < MaxModelFailCount
    ensures failure == Some(FitFailureLimit) ==> FailuresOf(c, drawn') == MaxModelFailCount
    ensures failure == Some(RandomStreamExhausted) ==>
              |TrialsOf(c, drawn')| < iterationCount' && Samples(c.fitter.minimalDataSetSize, draws, pos') == []
    ensures failure.None? ==>
              && pos < pos'
              && Running(c, draws, pos', drawn', modelFailCount', iteration', winner',
                         bestModel', bestModelSupport', bestModelInliers', iterationCount')
  {
    var fitter, data := c.fitter, c.data;
    var n, m := |data|, fitter.minimalDataSetSize;
    failure, pos', drawn', modelFailCount', iteration', winner' := None, pos, drawn, modelFailCount, iteration, winner;
    bestModel', bestModelSupport', bestModelInliers', iterationCount' :=
      bestModel, bestModelSupport, bestModelInliers, iterationCount;
    var ok, order, mask, next := DrawSample(n, m, draws, pos);
    if !ok {
      SamplesFirst(m, draws, pos, order, next);
      failure := Some(RandomStreamExhausted);
      return;
    }
    assert pos < next by {
      assert draws[pos..pos] == [];
    }
    drawn', pos' := drawn + [order], next;
    failure, modelFailCount', iteration', winner', bestModel', bestModelSupport', bestModelInliers', iterationCount' :=
      Fit(c, draws, pos, drawn, modelFailCount, iteration, winner,
          bestModel, bestModelSupport, bestModelInliers, iterationCount, order, mask, next);
  }

  /**
   * The rest of an iteration, once the sample `order` is drawn: a fit failure is counted,
   * and thrown at the limit; a model makes a trial, and the best is kept.
   */
  method Fit<D, M>(c: Config<D, M>, draws: seq<nat>, pos: nat, ghost drawn: seq<seq<nat>>,
                   modelFailCount: nat, iteration: nat, ghost winner: nat, bestModel: Option<M>,
                   bestModelSupport: nat, bestModelInliers: set<nat>, iterationCount: int,
                   order: seq<nat>, mask: set<nat>, next: nat)
    returns (failure: Option<Failure>, modelFailCount': nat, iteration': nat, ghost winner': nat,
             bestModel': Option<M>, bestModelSupport': nat, bestModelInliers': set<nat>, iterationCount': int)
    requires Running(c, draws, pos, drawn, modelFailCount, iteration, winner,
                     bestModel, bestModelSupport, bestModelInliers, iterationCount)
    requires iteration < iterationCount
    requires next == SampleEnd(c.fitter.minimalDataSetSize, draws, pos, pos)
    requires order == Dedup(draws[pos..next]) && |order| == c.fitter.minimalDataSetSize
    requires Distinct(order) && AllBelow(order, |c.data|) && mask == SetOf(order)
    ensures failure.None? || failure == Some(FitFailureLimit)
    ensures Taken(c, draws, next, drawn + [order])
    ensures KeepsBest(c, TrialsOf(c, drawn + [order]), winner', bestModel', bestModelSupport', bestModelInliers', iterationCount')
    ensures failure == Some(FitFailureLimit) ==> FailuresOf(c, drawn + [order]) == MaxModelFailCount
    ensures failure.None? ==>
              Running(c, draws, next, drawn + [order], modelFailCount', iteration', winner',
                      bestModel', bestModelSupport', bestModelInliers', iterationCount')
  {
    var fitter, data := c.fitter, c.data;
    failure, modelFailCount', iteration', winner' := None, modelFailCount, iteration, winner;
    bestModel', bestModelSupport', bestModelInliers', iterationCount' :=
      bestModel, bestModelSupport, bestModelInliers, iterationCount;
    var model := fitter.computeModel(Elements(data, order));
    if model.None? {
      FailedFit(c, draws, pos, drawn, modelFailCount, iteration, winner,
                bestModel, bestModelSupport, bestModelInliers, iterationCount, order, next);
      modelFailCount' := modelFailCount + 1;
      if modelFailCount' == MaxModelFailCount {
        failure := Some(FitFailureLimit);
      }
    } else {
      var consensus, consensusMask, t := Consensus(fitter, data, c.threshold, order, mask, model.value);
      assert TrialOf(c, order) == Some(t);
      bestModel', bestModelSupport', bestModelInliers', iterationCount', winner' :=
        Improve(c, consensus, consensusMask, model.value, t, TrialsOf(c, drawn), winner,
                bestModel, bestModelSupport, bestModelInliers, iterationCount);
      iteration' := iteration + 1;
      FittedTrial(c, draws, pos, drawn, modelFailCount, iteration, winner,
                  bestModel, bestModelSupport, bestModelInliers, iterationCount, order, next, t,
                  winner', bestModel', bestModelSupport', bestModelInliers', iterationCount');
    }
  }

  /**
   * The sampling loop of `perform`, for at least a minimal sample's worth of data: the
   * outcome of the samples it takes, and on success the kept trial's inlier set and support.
   */
  method Search<D, M>(c: Config<D, M>, draws: seq<nat>)
    returns (r: Result<M, Failure>, inliers: set<nat>, support: nat)
    requires 1 <= c.fitter.minimalDataSetSize <= |c.data|
    requires forall k :: 0 <= k < |draws| ==> draws[k] < |c.data|
    ensures r == SearchResult(c, Drawn(c, draws))
    ensures r.Ok? ==>
              var ts := TrialsOf(c, Drawn(c, draws));
              ts != [] && support == |ts[Leader(ts)].consensus| && inliers == SetOf(ts[Leader(ts)].consensus)
  {
    TakenStart(c, draws);
    ghost var drawn: seq<seq<nat>> := [];
    ghost var winner: nat := 0;
    var pos := 0;
    var iterationCount: int := 1;
    var modelFailCount: nat := 0;
    var bestModel: Option<M> := None;
    var bestModelSupport: nat := 0;
    var bestModelInliers: set<nat> := {};
    var iteration: nat := 0;
    // the exception the loop throws, if any
    var failure: Option<Failure> := None;
    while iteration < iterationCount
      invariant failure == None
      invariant Running(c, draws, pos, drawn, modelFailCount, iteration, winner,
                        bestModel, bestModelSupport, bestModelInliers, iterationCount)
      decreases |draws| - pos
    {
      var failed;
      failed, pos, drawn, modelFailCount, iteration, winner, bestModel, bestModelSupport, bestModelInliers, iterationCount :=
        Iterate(c, draws, pos, drawn, modelFailCount, iteration, winner,
                bestModel, bestModelSupport, bestModelInliers, iterationCount);
      if failed.Some? {
        failure := failed;
        break;
      }
    }
    Concludes(c, draws, pos, drawn, winner, bestModel, bestModelSupport, bestModelInliers, iterationCount, failure);
    if failure.Some? {
      return Err(failure.value), {}, 0;
    }
    r, inliers, support := Ok(bestModel.value), bestModelInliers, bestModelSupport;
  }

  class Ransac<D, M> {
    /** An element whose error exceeds this is an outlier. */
    const inlierThreshold: real
    /** The desired probability of drawing at least one all-inlier sample. */
    var successProbability: real

    /** The object invariant: the success probability lies in (0, 1), as the constructor sets it and the setter keeps it. */
    ghost predicate Valid()
      reads this
    {
      0.0 < successProbability < 1.0
    }

    constructor (inlierThreshold: real)
      ensures this.inlierThreshold == inlierThreshold
      ensures successProbability == 0.99 && Valid()
    {
      this.inlierThreshold := inlierThreshold;
      successProbability := 0.99;
    }

    /** Rejects a probability outside the open interval (0, 1), leaving the field as it was. */
    method SetSuccessProbability(p: real) returns (r: Result<(), IllegalArgument>)
      modifies this
      ensures r.Err? <==> p <= 0.0 || p >= 1.0
      ensures r.Err? ==> r.error == IllegalArgument(p) && successProbability == old(successProbability)
      ensures r.Ok? ==> successProbability == p
      ensures old(Valid()) ==> Valid()
    {
      if p <= 0.0 || p >= 1.0 {
        return Err(IllegalArgument(p));
      }
      successProbability := p;
      r := Ok(());
    }

    /** This estimator's run configuration for a fitter, data and sample-count formula. */
    function Setup(fitter: Fitter<D, M>, data: seq<D>, budget: (nat, nat, nat, real) -> int): Config<D, M>
      reads this
    {
      Config(fitter, data, inlierThreshold, successProbability, budget)
    }

    /**
     * `perform`. The random stream is `draws`; `budget(support, n, m, p)` stands for the
     * rounded sample-count formula. After the precondition check (whose shortcut model, if
     * any, is reported but not returned) the outcome is that of the sampling loop over the
     * samples it takes, and a success is reported with the kept trial's consensus set.
     * The formula is given the object's success probability, which `Valid` keeps in (0, 1).
     */
    method Perform(fitter: Fitter<D, M>, data: seq<D>, draws: seq<nat>,
                   budget: (nat, nat, nat, real) -> int)
      returns (r: Result<M, Failure>, events: seq<Event<M>>)
      requires Valid()
      requires 1 <= fitter.minimalDataSetSize
      requires forall k :: 0 <= k < |draws| ==> draws[k] < |data|
      ensures |data| < fitter.minimalDataSetSize ==> r == Err(NotEnoughData) && events == []
      ensures |data| == fitter.minimalDataSetSize && fitter.computeModel(data).None? ==>
                r == Err(NoModelFromWholeSet) && events == []
      ensures r.Err? ==> r.error in {NotEnoughData, NoModelFromWholeSet, FitFailureLimit, RandomStreamExhausted}
      ensures PerformCheck(fitter, data).result.Ok? ==>
                var c := Setup(fitter, data, budget);
                var ts := TrialsOf(c, Drawn(c, draws));
                && r == SearchResult(c, Drawn(c, draws))
                && (r.Err? ==> events == PerformCheck(fitter, data).events)
                && (r.Ok? ==>
                      && ts != []
                      && events == PerformCheck(fitter, data).events +
                           [Success(r.value, BitSetElementSet(SetOf(ts[Leader(ts)].consensus), |ts[Leader(ts)].consensus|))])
    {
      var check := PerformCheck(fitter, data);
      events := check.events;
      if check.result.Err? {
        return Err(check.result.error), events;
      }
      // the shortcut's model, if any, is not used: the search runs regardless
      var inliers, support;
      r, inliers, support := Search(Setup(fitter, data, budget), draws);
      if r.Ok? {
        events := events + [Success(r.value, BitSetElementSet(inliers, support))];
      }
    }
  }
}
