/**
 * What every estimator shares: the fitter it is given, the ways it can fail, the observer
 * callbacks it makes (recorded as a trace), and the precondition check with its shortcut
 * for a dataset of exactly minimal size.
 */
module RobustEstimator {
  import opened Common
  import opened BitSetElementSets

  /**
   * The caller's fitter: the minimal number of elements a model needs, the model computed
   * from a list of elements (None where the source returns null), and an element's error
   * against a model (lower is better).
   */
  datatype Fitter<!D, !M> = Fitter(
    minimalDataSetSize: nat,
    computeModel: seq<D> -> Option<M>,
    getError: (M, D) -> real)

  /** Why `perform` threw `NoModelFoundException`. */
  datatype Failure =
    | NotEnoughData          // fewer elements than the minimal sample size
    | NoModelFromWholeSet    // dataset of minimal size, and the fitter gave no model for it
    | FitFailureLimit        // the fitter failed on minimal samples too many times
    | NoConsensus            // RECON's attempt cap ran out without three consistent models
    | RandomStreamExhausted  // the supplied random draws ran out (a bound of this model only)

  /** One observer callback, in the order the estimator makes them. */
  datatype Event<M> =
    | Success(model: M, inliers: BitSetElementSet)
    | ModelFromMinimalSampleSet(samples: BitSetElementSet, fitted: Option<M>)
    | ModelPairConsistent(newModel: M, existingModel: M, consistentData: set<nat>)
    | ModelPairNotConsistent(newModel: M, existingModel: M)

  /** The outcome of the precondition check, and the callbacks it made. */
  datatype Checked<M> = Checked(result: Result<Option<M>, Failure>, events: seq<Event<M>>)

  /** The full-coverage set {0..n-1}. */
  function Everything(n: nat): (es: BitSetElementSet)
    ensures es.size == n && forall i: nat :: i in es.bitSet <==> i < n
  {
    BitSetElementSet(Range(n), n)
  }

  /**
   * `performCheck`: too little data throws; a dataset of exactly minimal size is fitted as a
   * whole (throwing if the fitter fails) and reported to the observer as a success over
   * every element; a larger dataset gives "no shortcut" (null) and touches nothing.
   */
  function PerformCheck<D, M>(fitter: Fitter<D, M>, data: seq<D>): (c: Checked<M>)
    ensures c.result == Ok(None) <==> |data| > fitter.minimalDataSetSize
    ensures c.result == Err(NotEnoughData) <==> |data| < fitter.minimalDataSetSize
    ensures c.result == Err(NoModelFromWholeSet) <==>
              |data| == fitter.minimalDataSetSize && fitter.computeModel(data).None?
    ensures c.result.Ok? && c.result.value.Some? <==>
              |data| == fitter.minimalDataSetSize && fitter.computeModel(data).Some?
    ensures c.result.Ok? && c.result.value.Some? ==>
              c.result.value == fitter.computeModel(data) &&
              c.events == [Success(c.result.value.value, Everything(|data|))]
    ensures !(c.result.Ok? && c.result.value.Some?) ==> c.events == []
  {
    if fitter.minimalDataSetSize > |data| then
      Checked(Err(NotEnoughData), [])
    else if fitter.minimalDataSetSize == |data| then
      match fitter.computeModel(data)
      case None => Checked(Err(NoModelFromWholeSet), [])
      case Some(model) => Checked(Ok(Some(model)), [Success(model, Everything(|data|))])
    else
      Checked(Ok(None), [])
  }
}
