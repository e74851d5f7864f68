# Robust model estimation: RANSAC and RECON

This project models the core of a small Java library for robust model fitting. The library
fits a model to data that contain outliers. A caller supplies a *fitter*, which has three
parts:

- a minimal data set size `m`;
- `computeModel`, which fits a model to a list of data elements and may fail (Java `null`);
- `getError`, which gives the error of one data element under a model.

The library has two estimators, both derived from `RobustEstimator`.

- `RobustEstimator.performCheck` handles the degenerate case first:
  - with fewer than `m` elements it fails with "not enough data";
  - with exactly `m` elements it fits the whole set. It fails if that fit fails. Otherwise it reports success to the monitor with every element as inlier.
- **RANSAC** (`Ransac`) repeats the following:
  - it draws a random minimal sample of distinct indices and fits a model to it;
  - it gathers as inliers every other element whose error is at most the inlier threshold;
  - when this consensus is larger than the best one so far, it keeps the model. The kept model is refitted on the consensus, or the sample's model if that fit fails.

  It also re-estimates the number of iterations from the inlier ratio and the success probability (default 0.99). It gives up after 1000 failed fits.
- **RECON** (`Recon`) stores the model of each new minimal sample with its data ranked by residual. It compares each new model with every stored one by the *alpha-consistency* test. The test looks for a chunk size `k` strictly between 10% and 90% of the data at which a common-point count reaches `0.99²` of `k`. The count covers the elements in both rankings' first-`k` prefixes, except those that both rankings list at the same rank. Such an element joins the common set but is never counted (Recon.java:257-260). So two models that rank the data identically are never consistent. Consistent pairs are remembered. RECON stops as soon as a new model is consistent with both models of a stored pair, provided two conditions hold:
  - the three pairwise common sets differ in size by at most 5% of the largest;
  - they share at least 2% of the data.

  It then refits on the common set, falling back to the new model. It gives up after 200 tries. Its limit of 1000 failed fits can never be reached within 200 tries, and the model proves that branch dead.
- `ElementSet` is the library's view of a subset of the data indices: size, membership and "next element from". `BitSetElementSet` implements it over a `java.util.BitSet`.

Randomness becomes a parameter: each estimator reads `draws`, the sequence of values its random generator would return. The optional monitor becomes a returned trace of `Event`s, one per callback.

Files and modules:

| module | file | models |
|---|---|---|
| `Common` | common.dfy | `Option`, `Result`, ranges, distinctness, ascending order, first index satisfying a test |
| `BitSets` | bitsets.dfy | `nextSetBit` and `nextClearBit` on a finite set of indices |
| `ElementSets` | element_set.dfy | the `ElementSet` contract and its documented iteration loop |
| `BitSetElementSets` | bitset_element_set.dfy | `BitSetElementSet` |
| `RobustEstimator` | robust_estimator.dfy | the fitter, the failures, the monitor events, `performCheck` |
| `Sampling` | sampling.dfy | the random minimal-sample loop both estimators share |
| `Residuals` | residuals.dfy | RECON's `Residual` and `ModelData`, and the stable sort by error |
| `AlphaConsistency` | alpha.dfy | `checkAlphaConsistency` |
| `ReconModels` | recon_models.dfy | the store of models, the matching map, the consistent pairs |
| `ReconTriangle` | recon_triangle.dfy | the search for a closing triangle and its acceptance test |
| `ReconEstimator` | recon.dfy | RECON's `perform` |
| `RansacEstimator` | ransac.dfy | the `Ransac` class: constructor, `setSuccessProbability`, `perform` |
| `RansacExamples` | ransac_examples.dfy | the scenario of the RANSAC unit test |

## Model

Source paths are relative to the repository root. `Recon.java`, `Ransac.java` and the other main sources are under `src/main/java/hu/kazocsaba/robust/`.

| member | source | states |
|---|---|---|
| BitSets.NextSetBit | src/main/java/hu/kazocsaba/robust/BitSetElementSet.java:30-32 | the least member at or after the start index, or -1 exactly when there is none |
| BitSets.NextClearBit | src/main/java/hu/kazocsaba/robust/Ransac.java:90 | the least non-member at or after the start index; it always exists |
| BitSetElementSets.Contains | src/main/java/hu/kazocsaba/robust/BitSetElementSet.java:24-27 | fails with index-out-of-bounds exactly when the index is outside `[0, size)`; otherwise answers membership |
| BitSetElementSets.NextElement | src/main/java/hu/kazocsaba/robust/BitSetElementSet.java:30-32 | fails exactly for a negative start index; otherwise gives the next member or -1 |
| BitSetElementSets.ViewIsElementSet | src/main/java/hu/kazocsaba/robust/BitSetElementSet.java:9-33 | a bit-set element set meets the `ElementSet` contract for a member set over `n` elements exactly when the members are its set bits, all below `n`, and its size bound is `n` |
| ElementSets.Traverse | src/main/java/hu/kazocsaba/robust/ElementSet.java:24-34 | the documented `nextElement` loop ends, and it visits each member exactly once in ascending order |
| RobustEstimator.Everything | src/main/java/hu/kazocsaba/robust/RobustEstimator.java:64-65 | the "everything" set holds exactly the indices `0..n-1` |
| RobustEstimator.PerformCheck | src/main/java/hu/kazocsaba/robust/RobustEstimator.java:56-71 | not enough data iff `n < m`; a failed whole-set fit iff `n == m` and the fit fails; a model iff `n == m` and the fit succeeds, together with one success callback on every element; otherwise no model and no callback |
| Sampling.DrawSample | src/main/java/hu/kazocsaba/robust/Recon.java:149-157 | the sample is the draws with repeats removed, distinct and in range, with `mask` its set; the loop stops where `SampleEnd` says, the first draw that completes `m` indices; it fails only when the draws run out. This loop is shared with Ransac.java:68-76 |
| Sampling.DedupDistinct | src/main/java/hu/kazocsaba/robust/Recon.java:151-156 | keeping only unseen indices gives distinct indices, exactly the set drawn |
| Sampling.DedupAppend | src/main/java/hu/kazocsaba/robust/Recon.java:153-156 | one more draw is appended to the sample exactly when it was not drawn before |
| Sampling.DedupGrows | src/main/java/hu/kazocsaba/robust/Recon.java:151-156 | reading more draws only extends the sample collected so far |
| Sampling.SampleEndIsFirst | src/main/java/hu/kazocsaba/robust/Recon.java:151-157 | the loop stops at the first position whose draws hold `m` distinct indices, every earlier position holding fewer; or at the end of the draws with fewer |
| Sampling.SampleEndAt | src/main/java/hu/kazocsaba/robust/Recon.java:151-157 | a position that first completes the sample, or the end of the draws, is where the loop stops |
| Sampling.DrawStep | src/main/java/hu/kazocsaba/robust/Recon.java:152-156 | one draw: the index joins the sample and the mask exactly when the mask lacks it, and the loop state holds one draw further |
| Sampling.SamplesValid | src/main/java/hu/kazocsaba/robust/Recon.java:149-157 | every sample the draws give, one after the other, holds exactly `m` distinct indices below `n` |
| Sampling.NoSampleLeft | src/main/java/hu/kazocsaba/robust/Recon.java:151-152 | the samples run out exactly where the remaining draws hold fewer than `m` distinct indices |
| Sampling.SamplesFirst | src/main/java/hu/kazocsaba/robust/Recon.java:149-157 | the first sample from a position is what the loop collects there, and the later samples start where it stopped |
| Residuals.RankingIsPermutation | src/main/java/hu/kazocsaba/robust/Recon.java:70-74 | sorted residuals rank each data element exactly once |
| Residuals.NewModelData | src/main/java/hu/kazocsaba/robust/Recon.java:66-75 | each residual pairs an element with its error under the model; they are sorted by error, with index order among equal errors |
| Residuals.SortByError | src/main/java/hu/kazocsaba/robust/Recon.java:74 | the array ends sorted by error, stably, and each entry is the original entry of its index |
| AlphaConsistency.ScanRanks | src/main/java/hu/kazocsaba/robust/Recon.java:246-290 | reports consistency exactly when the reference definition does; the common set is then the one at the first qualifying chunk |
| AlphaConsistency.AddRank | src/main/java/hu/kazocsaba/robust/Recon.java:257-279 | after one more rank, the elements seen in one ranking are both prefixes, those seen in both their intersection, and the count the common-point count of the longer chunk |
| AlphaConsistency.RankStep | src/main/java/hu/kazocsaba/robust/Recon.java:257-279 | how one rank changes the set of elements seen in both prefixes, per branch of the scan |
| AlphaConsistency.CommonCountMeaning | src/main/java/hu/kazocsaba/robust/Recon.java:250-278 | the common-point count plus the coincident ranks equals the number of elements in both prefixes |
| AlphaConsistency.ConsistencyIsFirstOverlap | src/main/java/hu/kazocsaba/robust/Recon.java:281-289 | inconsistent iff no chunk passes both tests; otherwise the common set is the overlap at the least passing chunk |
| AlphaConsistency.ConsistencyAt | src/main/java/hu/kazocsaba/robust/Recon.java:283-287 | when chunk `k` is the first to pass, the verdict is the overlap at `k` |
| AlphaConsistency.ConsistencyWithin | src/main/java/hu/kazocsaba/robust/Recon.java:291-292 | the common set holds only elements both rankings list |
| AlphaConsistency.ConsistencySymmetric | src/main/java/hu/kazocsaba/robust/Recon.java:253-290 | swapping the two models changes neither the verdict nor the common set |
| AlphaConsistency.IdenticalCountsNothing | src/main/java/hu/kazocsaba/robust/Recon.java:257-260 | identical rankings coincide at every rank, so their common-point count is 0 at every chunk |
| AlphaConsistency.IdenticalNeverConsistent | src/main/java/hu/kazocsaba/robust/Recon.java:246-290 | a model is never consistent with one that ranks the data in the same order |
| ReconModels.WellFormedIsRanked | src/main/java/hu/kazocsaba/robust/Recon.java:66-75 | a model built by the constructor ranks every element exactly once |
| ReconModels.AllWellFormedAt | src/main/java/hu/kazocsaba/robust/Recon.java:228 | every model in the store is one the constructor built |
| ReconModels.CheckPrevious | src/main/java/hu/kazocsaba/robust/Recon.java:180-188 | compares the new model with each stored model in storing order; the matching map and the callbacks are exactly those of the per-pair verdicts |
| ReconModels.PairEventsShape | src/main/java/hu/kazocsaba/robust/Recon.java:291-298 | one callback per stored model: consistent with the common set, or not consistent; never a success |
| ReconModels.LookupMatches | src/main/java/hu/kazocsaba/robust/Recon.java:197-200 | the matching map answers with the pair's verdict for each stored model, and with nothing for any model not stored |
| ReconModels.MatchesMembers | src/main/java/hu/kazocsaba/robust/Recon.java:292 | each map entry is a stored model with its consistent common set |
| ReconModels.AddPairs | src/main/java/hu/kazocsaba/robust/Recon.java:229-231 | appends exactly one pair (new model, matched model, common set) per map entry, in map order, after the old pairs |
| ReconModels.PairsOfAppend | src/main/java/hu/kazocsaba/robust/Recon.java:228-231 | storing one more model adds exactly its pairs with the models it matched before it, after the pairs the store already had |
| ReconModels.StoreKey | src/main/java/hu/kazocsaba/robust/Recon.java:228 | storing under a new key keeps the keys distinct and adds that key at the end |
| ReconModels.StoreWellFormed | src/main/java/hu/kazocsaba/robust/Recon.java:228 | storing a well-formed model keeps the whole store well formed and ranked |
| ReconModels.StorePairs | src/main/java/hu/kazocsaba/robust/Recon.java:228-231 | every stored pair joins two different stored models, the newer first, with a common set from their consistent verdict |
| ReconTriangle.TriangleAcceptsMeans | src/main/java/hu/kazocsaba/robust/Recon.java:206-210 | the integer form of the test means: every two common-set sizes are within 5% of each other's scale, and the triple overlap covers at least 2% of the data |
| ReconTriangle.FindTriangle | src/main/java/hu/kazocsaba/robust/Recon.java:196-210 | finds the first stored pair, in storing order, that closes an accepted triangle with the new model, and its common set; or reports that no stored pair does |
| ReconTriangle.ClosesParts | src/main/java/hu/kazocsaba/robust/Recon.java:197-210 | a closing pair has both its models in the matching map, and its common set is the intersection of the three common sets, which passes the acceptance test |
| ReconTriangle.NoMatchCloses | src/main/java/hu/kazocsaba/robust/Recon.java:190 | with an empty matching map no stored pair closes a triangle |
| ReconTriangle.NoneClosedAppend | src/main/java/hu/kazocsaba/robust/Recon.java:196-231 | storing one more model keeps "no triangle closed" exactly when none of the earlier pairs closed one with it |
| ReconTriangle.ClosingTriangle | src/main/java/hu/kazocsaba/robust/Recon.java:196-210 | a closing pair gives three distinct, pairwise consistent ranked models; the inliers are the intersection of their common sets, lie within the data, and pass the acceptance test |
| ReconEstimator.Refit | src/main/java/hu/kazocsaba/robust/Recon.java:213-218 | fits the common elements in ascending index order, falling back to the new model when the fit fails |
| ReconEstimator.FittedSamplesAppend | src/main/java/hu/kazocsaba/robust/Recon.java:166-167 | the samples reported as fitted in a trace are those of its parts, in order |
| ReconEstimator.StoreSkips | src/main/java/hu/kazocsaba/robust/Recon.java:159-172 | a sample whose set is stored, or that gives no model, leaves the store as it was |
| ReconEstimator.StoreGrows | src/main/java/hu/kazocsaba/robust/Recon.java:176-228 | a sample with a new set and a model adds its model data at the end of the store |
| ReconEstimator.StoreAfterKeys | src/main/java/hu/kazocsaba/robust/Recon.java:159-228 | the store that any sequence of tries leaves has distinct keys and only model data the constructor builds |
| ReconEstimator.StoreAfterFrom | src/main/java/hu/kazocsaba/robust/Recon.java:165-228 | every stored model data is that of one of the tried samples |
| ReconEstimator.StoreAfterHolds | src/main/java/hu/kazocsaba/robust/Recon.java:159-228 | every tried sample the fitter finds a model for has its set stored |
| ReconEstimator.SearchedNext | src/main/java/hu/kazocsaba/robust/Recon.java:145-157 | each try uses the next sample the draws give; without one the samples tried are all there are |
| ReconEstimator.SearchedSkip | src/main/java/hu/kazocsaba/robust/Recon.java:159-172 | a skipped or failed sample keeps the search state one sample further |
| ReconEstimator.SearchedStore | src/main/java/hu/kazocsaba/robust/Recon.java:176-231 | storing a model none of whose matches closes a triangle keeps the search state one sample further |
| ReconEstimator.Try | src/main/java/hu/kazocsaba/robust/Recon.java:145-232 | one try: without a sample the tries so far were all the draws give; a fit failure gives no result; without success the search state holds one sample further; with success the try finished the search as `Finished` states |
| ReconEstimator.Exhausted | src/main/java/hu/kazocsaba/robust/Recon.java:145-234 | the state after the last try without success is a search that gave up |
| ReconEstimator.Succeeded | src/main/java/hu/kazocsaba/robust/Recon.java:196-221 | the state before the last try and that try's success make a search that was won at that try |
| ReconEstimator.AppendFit | src/main/java/hu/kazocsaba/robust/Recon.java:166-167 | a fit callback adds its sample set to the fitted samples exactly when the fit gave a model |
| ReconEstimator.AppendPairs | src/main/java/hu/kazocsaba/robust/Recon.java:291-298 | the comparison callbacks add no fitted sample and no success |
| ReconEstimator.AppendSuccess | src/main/java/hu/kazocsaba/robust/Recon.java:219-220 | the success callback ends the trace and adds no fitted sample |
| ReconEstimator.Consider | src/main/java/hu/kazocsaba/robust/Recon.java:165-231 | builds the new model data for the sample, with its mask and sorted residuals. The comparison callbacks are those of the stored models in storing order. Without a closing triangle, no old pair closes one, and the new store and pairs are the old ones plus the model and one pair per match. With one, the closing pair is the first in storing order; its models and the new one are pairwise consistent; and the result is the refit on their common data |
| ReconEstimator.Perform | src/main/java/hu/kazocsaba/robust/Recon.java:136-235 | at most 200 tries, each using the next minimal sample the draws give. "No consensus" comes exactly after 200 tries, and running out of draws only after taking every sample they hold. On failure the store is what those samples leave: a stored sample set is skipped but uses a try, a failed fit is dropped, and every other model is stored. No try closed a triangle, and the callbacks report one fit per stored model. On success the last try closed a triangle with the first closing stored pair, and the result is the refit reported by the one success callback |
| RansacEstimator.AddedIsAscendingInliers | src/main/java/hu/kazocsaba/robust/Ransac.java:87-97 | the inlier scan adds, in ascending order, exactly the elements outside the sample within the threshold |
| RansacEstimator.ScanInliers | src/main/java/hu/kazocsaba/robust/Ransac.java:87-97 | the `nextClearBit` loop appends exactly those added inliers to the sample |
| RansacEstimator.TrialConsensus | src/main/java/hu/kazocsaba/robust/Ransac.java:86-98 | a trial's consensus is duplicate-free and holds exactly the sample and the elements within the threshold; its size is between `m` and `n` |
| RansacEstimator.Consensus | src/main/java/hu/kazocsaba/robust/Ransac.java:86-97 | builds the trial for a fitted sample with its consensus and mask |
| RansacEstimator.LeadsAppend | src/main/java/hu/kazocsaba/robust/Ransac.java:98-121 | a new trial replaces the leader exactly when its consensus is strictly larger; ties keep the earlier trial |
| RansacEstimator.AddedAt | src/main/java/hu/kazocsaba/robust/Ransac.java:90-95 | the inlier scan at one index: a sample index is skipped, any other index is added exactly when its error is within the threshold |
| RansacEstimator.TrialOf | src/main/java/hu/kazocsaba/robust/Ransac.java:80-97 | a fitted sample makes a trial of that sample whose consensus lies within the data |
| RansacEstimator.TrialsOf | src/main/java/hu/kazocsaba/robust/Ransac.java:64-127 | the fitted samples make at most one trial each, with consensus within the data |
| RansacEstimator.LeaderLeads | src/main/java/hu/kazocsaba/robust/Ransac.java:98-121 | the kept trial is the first to reach the largest consensus |
| RansacEstimator.LeaderStep | src/main/java/hu/kazocsaba/robust/Ransac.java:98 | a new trial becomes the kept one exactly when its consensus is strictly larger |
| RansacEstimator.UsedIsFirstStop | src/main/java/hu/kazocsaba/robust/Ransac.java:64 | the loop goes on after every shorter prefix of the samples it takes, and stops after the last unless the samples ran out |
| RansacEstimator.DrawnStopped | src/main/java/hu/kazocsaba/robust/Ransac.java:64-84 | the loop went on before its last sample and stopped after it, unless the draws hold no further sample |
| RansacEstimator.UsedStops | src/main/java/hu/kazocsaba/robust/Ransac.java:64 | the samples the loop takes are all the samples or stop it, and it went on before the last of them |
| RansacEstimator.TrialsAreTrials | src/main/java/hu/kazocsaba/robust/Ransac.java:80-97 | every trial made is one the loop can make: the sample, its model and its consensus |
| RansacEstimator.FirstTrial | src/main/java/hu/kazocsaba/robust/Ransac.java:80-97 | when the first sample fits, the first trial is that sample's |
| RansacEstimator.SearchFailures | src/main/java/hu/kazocsaba/robust/Ransac.java:81-84 | the fitter fails at most 1000 times, and the fit-failure error comes exactly when it failed 1000 times |
| RansacEstimator.SearchOutcome | src/main/java/hu/kazocsaba/robust/Ransac.java:64-128 | running out of draws means every sample was taken; success comes after at least the count computed at the kept trial, which is the first with the largest consensus; every trial is a trial the loop can make |
| RansacEstimator.Improve | src/main/java/hu/kazocsaba/robust/Ransac.java:98-125 | a strictly larger consensus makes the trial the kept one, with its chosen model, support, inlier set and new count; otherwise the record stays as it was |
| RansacEstimator.Iterate | src/main/java/hu/kazocsaba/robust/Ransac.java:68-127 | one iteration takes the next sample; a fit failure counts and throws at the 1000th; a fit makes a trial and keeps the best; the draws run out only while the count asks for more trials and no further sample is left; without a failure the loop state holds one sample further |
| RansacEstimator.Fit | src/main/java/hu/kazocsaba/robust/Ransac.java:80-127 | the rest of an iteration after the draw: a failed fit is counted and throws at the 1000th; a model makes a trial and keeps the best; either way the sample is taken, and without a throw the loop state holds one sample further |
| RansacEstimator.FailedFit | src/main/java/hu/kazocsaba/robust/Ransac.java:81-84 | a sample the fitter gives no model for is taken and adds one failure; the unchanged record of the best trial still agrees with the trials |
| RansacEstimator.FittedTrial | src/main/java/hu/kazocsaba/robust/Ransac.java:85-126 | a sample that makes a trial adds that trial and one iteration, and the record kept for the new trials makes the loop state hold again |
| RansacEstimator.Ransac.constructor | src/main/java/hu/kazocsaba/robust/Ransac.java:21-33 | keeps the inlier threshold; the success probability starts at 0.99 |
| RansacEstimator.Ransac.SetSuccessProbability | src/main/java/hu/kazocsaba/robust/Ransac.java:41-45 | fails with the value exactly when it is not strictly between 0 and 1, and then leaves the field unchanged; otherwise sets it |
| RansacEstimator.Ransac.Perform | src/main/java/hu/kazocsaba/robust/Ransac.java:50-132 | for an object whose success probability lies in (0, 1): the check's failures come first, with no callback. Once the check passes, the result is the reference outcome `SearchResult` of the samples the loop takes. The trace is the check's events, plus, on success, one success callback with the kept trial's inliers and support |
| RansacEstimator.Search | src/main/java/hu/kazocsaba/robust/Ransac.java:64-128 | the sampling loop's outcome is the reference outcome `SearchResult` of the samples the loop takes, and a success carries the kept trial's inlier set and support |
| RansacExamples.MeanOfEights | src/test/java/hu/kazocsaba/robust/RansacTest.java:30-35 | the test fitter's model of any non-empty list of eights is 8 |
| RansacExamples.SumOfEights | src/test/java/hu/kazocsaba/robust/RansacTest.java:31-33 | the sum of `k` eights is `8 * k` |
| RansacExamples.AllInliers | src/test/java/hu/kazocsaba/robust/RansacTest.java:43-48 | on data of eights only, with threshold 0, any result is 8 whatever the draws |
| RansacExamples.AllInliersResult | src/test/java/hu/kazocsaba/robust/RansacTest.java:43-48 | on data of eights only, the reference outcome of any draws, when a model, is 8 |
| RansacExamples.TestDataIsMixed | src/test/java/hu/kazocsaba/robust/RansacTest.java:17 | the test's first data set is five eights followed by distinct outliers |
| RansacExamples.TrialAgreement | src/test/java/hu/kazocsaba/robust/RansacTest.java:25-35 | under threshold 0 with the test fitter, a trial's consensus is exactly the elements equal to its model |
| RansacExamples.MixedConsensus | src/test/java/hu/kazocsaba/robust/RansacTest.java:17 | on such data the consensus of 8 is all the eights; the consensus of an outlier is one element |
| RansacExamples.MixedWinner | src/test/java/hu/kazocsaba/robust/RansacTest.java:38-41 | once a trial has fitted 8, the leading trial's refit is 8 |
| RansacExamples.FirstSampleOfOne | src/test/java/hu/kazocsaba/robust/RansacTest.java:22 | with minimal sample size 1 the first sample is the first draw alone |
| RansacExamples.FirstTrialIsEight | src/test/java/hu/kazocsaba/robust/RansacTest.java:17-22 | when the first draw is an eight, the first trial fits 8 |
| RansacExamples.MixedResult | src/test/java/hu/kazocsaba/robust/RansacTest.java:38-41 | when the first draw is an eight, the reference outcome, when a model, is 8 |
| RansacExamples.MixedInliers | src/test/java/hu/kazocsaba/robust/RansacTest.java:38-41 | on such data, a result of a run whose first draw is an eight is 8 |

## Left out

- Randomness: `java.util.Random` is replaced by the sequence `draws` of values it returns. A run that uses up `draws` ends with `RandomStreamExhausted`. This failure exists only in the model; the source would keep drawing forever.
- `Recon.setRandom` (Recon.java:41-44) is left out, since the draws are a parameter. The unit test calls `setRandom` on a `Ransac`, but Ransac.java has no such method. Its `perform` makes a fresh `Random` (Ransac.java:52).
- RansacExamples.MixedInliers: the first data set of the unit test is proved to give 8 only when the first draw is an eight. A run that starts on an outlier may stop after that one trial when the sample-count formula allows it. The test's fixed seed is not modelled, so the model cannot show that such a trial happens.
- Floating point: errors are `real`, and the thresholds are exact.
  - The double `.99*.99` is taken as 9801/10000.
  - The 5% and 2% tests and the 10%/90% chunk bounds are cross-multiplied in integers.
  - Rounding differences of double arithmetic, NaN and infinite errors are not modelled.
  - RansacEstimator.Ransac.SetSuccessProbability takes a real and so cannot be given NaN. In Java, NaN passes the range check (Ransac.java:42-43), because both comparisons are false, and is stored. `Ransac.Valid()` would not hold for such an object.
  - Residuals.NewModelData orders errors as reals. `Double.compare` (Recon.java:57) puts -0.0 before 0.0, so Java sorts those two errors by sign; the model treats them as equal and orders them by index.
- Ransac.Perform: the iteration-count formula with `log1p`, `pow` and `Math.round` (Ransac.java:123-124) is the caller's parameter `budget`. The model proves that the loop ran at least the budget of the last improvement, not the formula's value. Java `int` overflow of the counters is not modelled.
- The monitor: the optional monitor is modelled as the complete trace of callbacks the method would make. A `null` monitor is the caller ignoring the trace. So `RobustEstimator.perform(fitter, data)` (RobustEstimator.java:90-92) has no member of its own.
- The not-consistent callback's third argument is always `null` in the source (Recon.java:297), and the model's event carries no set.
- RANSAC's `perform` makes the monitor's success callback only, never the per-sample callback. When `n == m` it reports success twice: once from `performCheck`, whose model it discards, and once after its own search.
- The fitter is a caller-supplied value of functions, not code.
- ReconEstimator.Perform requires `1 <= m <= n`. `Recon.perform` never calls `performCheck` (Recon.java:137-157). With `0 < n < m` its sampling loop (Recon.java:151-157) can never collect `m` distinct indices, so it spins forever. With `n = 0`, `Random.nextInt(0)` (Recon.java:152) throws `IllegalArgumentException` on the first draw. The model excludes these inputs. `m = 0` is excluded because the fitter documents `minimalDataSetSize <= 0` as illegal (Fitter.java:18), though its constructor does not check it.
- `HashMap` iteration order of `storedModelData` and `matchingPreviousModels` (Recon.java:182, 229) is unspecified. The model uses insertion order, so "the first stored pair that closes a triangle" is relative to that order.
- A `ModelData` is identified by its minimal sample set. The source hashes it by object identity, but each stored model has a different sample set, so the two agree.
- `Collections.sort` is modelled as an in-place stable insertion sort. Every stable sort gives the same result, which the contract states.
- Fitted model identity (`equals`) plays no role. Comparisons are on indices and sets only.
- The unit-test fitter divides by zero on an empty list. The model's `IntegerMean` returns no model there instead; the estimators never call it on an empty list.
- BitSetElementSets: `size()` returns the bit set's cardinality. It is modelled as the set's size and has no contract of its own worth stating.
- The RECON `Monitor`'s own interface declarations, `Fitter.java` and `NoModelFoundException.java` are plain declarations. They appear as datatypes only.
- ReconEstimator.Perform: the callbacks are described by what they report, not listed one by one. The fitted sample sets are the store's keys in order, no callback before the last reports success, and the last one reports the result. The order of fit and comparison callbacks between tries is not stated.
- ReconEstimator.StoreAfter describes each stored model data by its mask, its model and its residuals sorted by error and index. These determine the residual list, so the store is fixed by the samples tried.
- ReconEstimator.Perform: each fit callback's `BitSetElementSet` wraps the live `sampleMask` (Recon.java:167), which the next try clears and refills (Recon.java:150-156). A monitor that keeps the set sees it change. The model's event holds a copy of the mask at the time of the callback.
