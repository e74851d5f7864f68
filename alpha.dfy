/**
 * RECON's alpha-consistency test of two models. Each model ranks the data elements by
 * residual. Two models agree when, for some chunk size k, the common-point count of the
 * first k ranks reaches the `minOverlapFraction` share of k. The chunk must also be
 * strictly between 10% and 90% of the data. The count covers the elements found in both
 * first-k prefixes except those both rankings list at the same rank: such an element joins
 * the common set but is never counted. So two models that rank the data identically are
 * never consistent (`IdenticalNeverConsistent`).
 *
 * The ratio tests are compared exactly, cross-multiplied: `minOverlapFraction` is
 * 0.99 * 0.99 = 9801 / 10000.
 */
module AlphaConsistency {
  import opened Common

  /** `minOverlapFraction` (alpha squared) as the fraction OverlapNumerator / OverlapDenominator. */
  const OverlapNumerator: nat := 9801
  const OverlapDenominator: nat := 10000

  /** The elements among the first `k` ranks of `r`. */
  function Prefix(r: seq<nat>, k: nat): set<nat>
    requires k <= |r|
  {
    if k == 0 then {} else Prefix(r, k - 1) + {r[k - 1]}
  }

  /** The number of ranks below `k` at which both rankings list the same element. */
  function Coincident(r1: seq<nat>, r2: seq<nat>, k: nat): nat
    requires k <= |r1| && k <= |r2|
  {
    if k == 0 then 0
    else Coincident(r1, r2, k - 1) + (if r1[k - 1] == r2[k - 1] then 1 else 0)
  }

  /** The elements in both length-`k` prefixes. */
  function InBoth(r1: seq<nat>, r2: seq<nat>, k: nat): set<nat>
    requires k <= |r1| && k <= |r2|
  {
    Prefix(r1, k) * Prefix(r2, k)
  }

  /**
   * What rank `n` adds to the common-point count: nothing if both rankings list the same
   * element there; otherwise one for each of the two elements the other ranking has
   * already listed.
   */
  function Joined(r1: seq<nat>, r2: seq<nat>, n: nat): nat
    requires n < |r1| && n < |r2|
  {
    if r1[n] == r2[n] then 0
    else (if r1[n] in Prefix(r2, n) then 1 else 0) + (if r2[n] in Prefix(r1, n) then 1 else 0)
  }

  /** The common-point count after chunk `k` (ranks 0..k-1). */
  function CommonCount(r1: seq<nat>, r2: seq<nat>, k: nat): nat
    requires k <= |r1| && k <= |r2|
  {
    if k == 0 then 0 else CommonCount(r1, r2, k - 1) + Joined(r1, r2, k - 1)
  }

  /** count / chunk >= minOverlapFraction, for a positive chunk. */
  predicate EnoughOverlap(count: int, chunk: nat)
  {
    count * OverlapDenominator >= OverlapNumerator * chunk
  }

  /** 0.1 < chunk / dataSize < 0.9. */
  predicate InBand(chunk: nat, dataSize: nat)
  {
    10 * chunk < 9 * dataSize && 10 * chunk > dataSize
  }

  /**
   * Chunk `k` (ranks 0..k-1) shows consistency: the common count is at least the
   * `minOverlapFraction` share of `k`, and `k` lies in the band.
   */
  predicate Overlaps(r1: seq<nat>, r2: seq<nat>, k: nat)
    requires k <= |r1| && k <= |r2|
  {
    EnoughOverlap(CommonCount(r1, r2, k), k) && InBand(k, |r1|)
  }

  /** The chunk-size test as a function value: chunk `k` of the data shows consistency. */
  function OverlapTest(r1: seq<nat>, r2: seq<nat>): nat -> bool
    requires |r1| == |r2|
  {
    (k: nat) => k <= |r1| && Overlaps(r1, r2, k)
  }

  /**
   * The verdict on two rankings: the common set at the first chunk that shows
   * consistency, or None when no chunk does.
   */
  function Consistency(r1: seq<nat>, r2: seq<nat>): Option<set<nat>>
    requires |r1| == |r2|
  {
    match FirstWhere(OverlapTest(r1, r2), 1, |r1|)
    case None => None
    case Some(k) => Some(InBoth(r1, r2, k))
  }

  /**
   * A pair is consistent exactly when some chunk shows consistency. The common set is then
   * the one at the smallest such chunk.
   */
  lemma ConsistencyIsFirstOverlap(r1: seq<nat>, r2: seq<nat>)
    requires |r1| == |r2|
    ensures Consistency(r1, r2).None? <==> forall k :: 1 <= k <= |r1| ==> !Overlaps(r1, r2, k)
    ensures Consistency(r1, r2).Some? ==>
              exists k :: 1 <= k <= |r1| && Overlaps(r1, r2, k)
                && Consistency(r1, r2).value == InBoth(r1, r2, k)
                && forall k' :: 1 <= k' < k ==> !Overlaps(r1, r2, k')
  {
    var p := OverlapTest(r1, r2);
    forall k | 1 <= k <= |r1|
      ensures p(k) == Overlaps(r1, r2, k)
    {
    }
    FirstWhereIsLeast(p, 1, |r1|);
  }

  /** The verdict when chunk `k` is the first to show consistency. */
  lemma ConsistencyAt(r1: seq<nat>, r2: seq<nat>, k: nat)
    requires |r1| == |r2| && 1 <= k <= |r1| && Overlaps(r1, r2, k)
    requires forall j :: 1 <= j < k ==> !Overlaps(r1, r2, j)
    ensures Consistency(r1, r2) == Some(InBoth(r1, r2, k))
  {
    var p := OverlapTest(r1, r2);
    FirstWhereIsLeast(p, 1, |r1|);
    var r := FirstWhere(p, 1, |r1|);
    assert p(k);
    assert r.Some? && r.value <= k;
  }

  /**
   * `checkAlphaConsistency`'s scan over the ranks. `seenInOne` collects the elements of
   * both prefixes and `seenInBoth` the elements found in both. `commonPointCount` counts
   * every element that joins `seenInBoth` at a later rank than the one where it was
   * first seen. The scan stops at the first chunk that shows consistency.
   */
  method ScanRanks(r1: seq<nat>, r2: seq<nat>) returns (consistent: bool, seenInBoth: set<nat>)
    requires |r1| == |r2| && Distinct(r1) && Distinct(r2)
    ensures consistent <==> Consistency(r1, r2).Some?
    ensures consistent ==> seenInBoth == Consistency(r1, r2).value
  {
    var dataSize := |r1|;
    var seenInOne: set<nat> := {};
    seenInBoth := {};
    var commonPointCount: int := 0;
    consistent := false;
    var n := 0;
    while n < dataSize
      invariant n <= dataSize && Scanned(r1, r2, n, seenInOne, seenInBoth, commonPointCount)
      invariant forall k :: 1 <= k <= n ==> !Overlaps(r1, r2, k)
    {
      seenInOne, seenInBoth, commonPointCount := AddRank(r1, r2, n, seenInOne, seenInBoth, commonPointCount);
      var chunkSize := n + 1;
      if EnoughOverlap(commonPointCount, chunkSize) {
        if InBand(chunkSize, dataSize) {
          ConsistencyAt(r1, r2, chunkSize);
          consistent := true;
          return;
        }
      }
      n := n + 1;
    }
    ConsistencyIsFirstOverlap(r1, r2);
  }

  /**
   * The scan's state after the first `n` ranks: `seenInOne` holds both prefixes,
   * `seenInBoth` their common elements and `commonPointCount` the common-point count.
   */
  ghost predicate Scanned(r1: seq<nat>, r2: seq<nat>, n: nat, seenInOne: set<nat>, seenInBoth: set<nat>, commonPointCount: int)
  {
    && n <= |r1| == |r2|
    && seenInOne == Prefix(r1, n) + Prefix(r2, n)
    && seenInBoth == InBoth(r1, r2, n)
    && commonPointCount == CommonCount(r1, r2, n)
  }

  /**
   * The scan's step over rank `n`: a coincident rank adds its element to both sets; otherwise
   * each of the two elements joins `seenInBoth`, and counts, when `seenInOne` already holds
   * it, and joins `seenInOne` when it does not.
   */
  method AddRank(r1: seq<nat>, r2: seq<nat>, n: nat, seenInOne: set<nat>, seenInBoth: set<nat>, commonPointCount: int)
    returns (seenInOne': set<nat>, seenInBoth': set<nat>, commonPointCount': int)
    requires n < |r1| && Distinct(r1) && Distinct(r2)
    requires Scanned(r1, r2, n, seenInOne, seenInBoth, commonPointCount)
    ensures Scanned(r1, r2, n + 1, seenInOne', seenInBoth', commonPointCount')
  {
    var residualIndex1, residualIndex2 := r1[n], r2[n];
    RankStep(r1, r2, n);
    seenInOne', seenInBoth', commonPointCount' := seenInOne, seenInBoth, commonPointCount;
    if residualIndex1 == residualIndex2 {
      seenInOne' := seenInOne' + {residualIndex1};
      seenInBoth' := seenInBoth' + {residualIndex1};
    } else {
      if residualIndex1 in seenInOne' {
        seenInBoth' := seenInBoth' + {residualIndex1};
        commonPointCount' := commonPointCount' + 1;
      } else {
        seenInOne' := seenInOne' + {residualIndex1};
      }
      if residualIndex2 in seenInOne' {
        seenInBoth' := seenInBoth' + {residualIndex2};
        commonPointCount' := commonPointCount' + 1;
      } else {
        seenInOne' := seenInOne' + {residualIndex2};
      }
    }
  }

  /**
   * Rank `n` of two rankings without repeats: each element is new to its own ranking's
   * prefix. A coincident rank adds its element to the common set. Otherwise each ranking's
   * element joins the common set exactly when the other ranking's prefix already holds it.
   */
  lemma RankStep(r1: seq<nat>, r2: seq<nat>, n: nat)
    requires n < |r1| == |r2| && Distinct(r1) && Distinct(r2)
    ensures r1[n] !in Prefix(r1, n) && r2[n] !in Prefix(r2, n)
    ensures r1[n] == r2[n] ==> InBoth(r1, r2, n + 1) == InBoth(r1, r2, n) + {r1[n]}
    ensures r1[n] != r2[n] ==>
              InBoth(r1, r2, n + 1) == InBoth(r1, r2, n)
                + (if r1[n] in Prefix(r2, n) then {r1[n]} else {})
                + (if r2[n] in Prefix(r1, n) then {r2[n]} else {})
  {
    NotYetRanked(r1, n);
    NotYetRanked(r2, n);
  }

  /**
   * What the common-point count counts: the elements in both prefixes, less those found at
   * the same rank in both (rankings without repeats).
   */
  lemma {:induction false} CommonCountMeaning(r1: seq<nat>, r2: seq<nat>, k: nat)
    requires k <= |r1| == |r2| && Distinct(r1) && Distinct(r2)
    ensures CommonCount(r1, r2, k) + Coincident(r1, r2, k) == |InBoth(r1, r2, k)|
  {
    if k > 0 {
      var n := k - 1;
      CommonCountMeaning(r1, r2, n);
      RankStep(r1, r2, n);
      var before := InBoth(r1, r2, n);
      assert r1[n] !in before && r2[n] !in before;
    }
  }

  /** In a ranking without repeats, the element at rank `n` is not among the ranks before it. */
  lemma {:induction false} NotYetRanked(r: seq<nat>, n: nat)
    requires n < |r| && Distinct(r)
    ensures r[n] !in Prefix(r, n)
  {
    PrefixMembers(r, n);
  }

  /** The prefix set holds exactly the elements at ranks below `k`. */
  lemma {:induction false} PrefixMembers(r: seq<nat>, k: nat)
    requires k <= |r|
    ensures forall x :: x in Prefix(r, k) <==> exists j :: 0 <= j < k && r[j] == x
  {
    if k > 0 {
      PrefixMembers(r, k - 1);
    }
  }

  /** The prefix set is the set of the prefix. */
  lemma PrefixIsSetOfSlice(r: seq<nat>, k: nat)
    requires k <= |r|
    ensures Prefix(r, k) == SetOf(r[..k])
  {
    PrefixMembers(r, k);
    forall x
      ensures x in SetOf(r[..k]) <==> exists j :: 0 <= j < k && r[j] == x
    {
      if x in SetOf(r[..k]) {
        var j :| 0 <= j < k && r[..k][j] == x;
        assert r[j] == x;
      }
      if exists j :: 0 <= j < k && r[j] == x {
        var j :| 0 <= j < k && r[j] == x;
        assert r[..k][j] == x;
      }
    }
  }

  /** The common set of a consistent pair holds only elements that both rankings list. */
  lemma ConsistencyWithin(r1: seq<nat>, r2: seq<nat>)
    requires |r1| == |r2|
    ensures Consistency(r1, r2).Some? ==> Consistency(r1, r2).value <= SetOf(r1) * SetOf(r2)
  {
    match FirstWhere(OverlapTest(r1, r2), 1, |r1|)
    case None =>
    case Some(k) =>
      PrefixIsSetOfSlice(r1, k);
      PrefixIsSetOfSlice(r2, k);
      assert forall x :: x in r1[..k] ==> x in r1;
      assert forall x :: x in r2[..k] ==> x in r2;
  }

  /** Swapping the two rankings changes neither the verdict nor the common set. */
  lemma ConsistencySymmetric(r1: seq<nat>, r2: seq<nat>)
    requires |r1| == |r2|
    ensures Consistency(r1, r2) == Consistency(r2, r1)
  {
    forall k | 1 <= k <= |r1|
      ensures OverlapTest(r1, r2)(k) == OverlapTest(r2, r1)(k)
    {
      CommonCountSymmetric(r1, r2, k);
    }
    FirstWhereAgrees(OverlapTest(r1, r2), OverlapTest(r2, r1), 1, |r1|);
    match FirstWhere(OverlapTest(r1, r2), 1, |r1|)
    case None =>
    case Some(k) =>
      assert InBoth(r1, r2, k) == InBoth(r2, r1, k);
  }

  lemma {:induction false} CommonCountSymmetric(r1: seq<nat>, r2: seq<nat>, k: nat)
    requires k <= |r1| && k <= |r2|
    ensures CommonCount(r1, r2, k) == CommonCount(r2, r1, k)
  {
    if k > 0 {
      CommonCountSymmetric(r1, r2, k - 1);
    }
  }

  /** Identical rankings coincide at every rank, so their common-point count stays 0. */
  lemma {:induction false} IdenticalCountsNothing(r: seq<nat>, k: nat)
    requires k <= |r|
    ensures CommonCount(r, r, k) == 0
  {
    if k > 0 {
      IdenticalCountsNothing(r, k - 1);
    }
  }

  /** A model is never consistent with one that ranks the data in the same order. */
  lemma IdenticalNeverConsistent(r: seq<nat>)
    ensures Consistency(r, r).None?
  {
    forall k | 1 <= k <= |r|
      ensures !Overlaps(r, r, k)
    {
      IdenticalCountsNothing(r, k);
    }
    ConsistencyIsFirstOverlap(r, r);
  }
}
