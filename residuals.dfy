/**
 * RECON's per-model data: every element's residual (its error under the model), sorted by
 * error. The sort is stable and compares errors only, and the list is filled in index
 * order, so elements with equal error stay in ascending index order.
 */
module Residuals {
  import opened Common
  import opened RobustEstimator

  /** A data element's index and its error under a model. */
  datatype Residual = Residual(index: nat, error: real)

  /** The order the stable sort produces: by error, and by index among equal errors. */
  predicate Before(x: Residual, y: Residual)
  {
    x.error < y.error || (x.error == y.error && x.index < y.index)
  }

  predicate ByErrorThenIndex(rs: seq<Residual>)
  {
    forall p, q :: 0 <= p < q < |rs| ==> Before(rs[p], rs[q])
  }

  /** Every entry of `rs` is a valid index of `data` paired with its error under `model`. */
  ghost predicate ResidualsOf<D, M>(fitter: Fitter<D, M>, data: seq<D>, model: M, rs: seq<Residual>)
  {
    && |rs| == |data|
    && forall k :: 0 <= k < |rs| ==>
         rs[k].index < |data| && rs[k].error == fitter.getError(model, data[rs[k].index])
  }

  /** A model, the minimal sample set it was fitted to, and its sorted residuals. */
  datatype ModelData<M> = ModelData(residuals: seq<Residual>, model: M, minimalSampleSet: set<nat>)

  /** The element indices in residual order: the model's ranking of the data. */
  function Ranking(rs: seq<Residual>): (r: seq<nat>)
    ensures |r| == |rs| && forall k :: 0 <= k < |rs| ==> r[k] == rs[k].index
  {
    seq(|rs|, k requires 0 <= k < |rs| => rs[k].index)
  }

  /**
   * Sorted residuals of a model rank every data element exactly once: the ranking is a
   * permutation of 0..n-1.
   */
  lemma RankingIsPermutation<D, M>(fitter: Fitter<D, M>, data: seq<D>, model: M, rs: seq<Residual>)
    requires ResidualsOf(fitter, data, model, rs) && ByErrorThenIndex(rs)
    ensures Distinct(Ranking(rs)) && SetOf(Ranking(rs)) == Range(|data|)
  {
    var r := Ranking(rs);
    forall p, q | 0 <= p < q < |r|
      ensures r[p] != r[q]
    {
      assert Before(rs[p], rs[q]);
    }
    DistinctCardinality(r);
    assert SetOf(r) <= Range(|data|);
    assert Range(|data|) == SetOf(r) + (Range(|data|) - SetOf(r));
  }

  /**
   * The `ModelData` constructor: list every element's residual in index order, then sort
   * the list by error with a stable sort.
   */
  method NewModelData<D, M>(fitter: Fitter<D, M>, data: seq<D>, model: M, minimalSampleSet: set<nat>)
    returns (md: ModelData<M>)
    ensures md.model == model && md.minimalSampleSet == minimalSampleSet
    ensures ResidualsOf(fitter, data, model, md.residuals) && ByErrorThenIndex(md.residuals)
  {
    var residuals := new Residual[|data|];
    for index := 0 to |data|
      invariant forall k :: 0 <= k < index ==> residuals[k] == Residual(k, fitter.getError(model, data[k]))
    {
      residuals[index] := Residual(index, fitter.getError(model, data[index]));
    }
    SortByError(residuals);
    md := ModelData(residuals[..], model, minimalSampleSet);
  }

  /**
   * `Collections.sort` on a list whose i-th entry is element i's residual: a stable sort by
   * error, written as an insertion sort (every stable sort gives the same result). Each
   * entry afterwards is the original entry of its index.
   */
  method SortByError(a: array<Residual>)
    requires forall k :: 0 <= k < a.Length ==> a[k].index == k
    modifies a
    ensures ByErrorThenIndex(a[..])
    ensures FromOriginal(a[..], old(a[..]))
  {
    ghost var orig := a[..];
    var i := 0;
    while i < a.Length
      invariant 0 <= i <= a.Length
      invariant forall p, q :: 0 <= p < q < i ==> Before(a[p], a[q])
      invariant forall k :: 0 <= k < i ==> a[k].index < i
      invariant forall k :: i <= k < a.Length ==> a[k] == orig[k]
      invariant FromOriginal(a[..], orig)
    {
      Insert(a, i, orig);
      i := i + 1;
    }
  }

  /** Every entry of `s` is the original entry of its index. */
  predicate FromOriginal(s: seq<Residual>, orig: seq<Residual>)
  {
    forall k :: 0 <= k < |s| ==> s[k].index < |orig| && s[k] == orig[s[k].index]
  }

  /**
   * While entry `x` moves left through positions 0..i: it sits at `j`, the other entries
   * are in order, the ones right of it have strictly larger error, and their indices are
   * below `i`, the index of `x`.
   */
  predicate Inserting(s: seq<Residual>, j: nat, i: nat, x: Residual)
    requires j <= i < |s|
  {
    && s[j] == x
    && (forall p, q :: 0 <= p < q <= i && p != j && q != j ==> Before(s[p], s[q]))
    && (forall q :: j < q <= i ==> x.error < s[q].error)
    && (forall k :: 0 <= k <= i && k != j ==> s[k].index < i)
  }

  /** Swapping `x` with a left neighbour of larger error keeps the insertion going. */
  lemma SwapLeft(s: seq<Residual>, t: seq<Residual>, j: nat, i: nat, x: Residual, orig: seq<Residual>)
    requires 0 < j <= i < |s|
    requires Inserting(s, j, i, x) && s[j - 1].error > x.error
    requires FromOriginal(s, orig)
    requires t == s[j - 1 := s[j]][j := s[j - 1]]
    ensures Inserting(t, j - 1, i, x) && FromOriginal(t, orig)
    ensures forall k :: i < k < |s| ==> t[k] == s[k]
  {
    forall p, q | 0 <= p < q <= i && p != j - 1 && q != j - 1
      ensures Before(t[p], t[q])
    {
      var p', q' := if p == j then j - 1 else p, if q == j then j - 1 else q;
      assert t[p] == s[p'] && t[q] == s[q'];
    }
  }

  /** Once `x` meets a left neighbour of no larger error, positions 0..i are in order. */
  lemma InsertDone(s: seq<Residual>, j: nat, i: nat, x: Residual)
    requires j <= i < |s| && x.index == i
    requires Inserting(s, j, i, x) && (j > 0 ==> s[j - 1].error <= x.error)
    ensures forall p, q :: 0 <= p < q <= i ==> Before(s[p], s[q])
    ensures forall k :: 0 <= k <= i ==> s[k].index <= i
  {
    if j > 0 {
      assert Before(s[j - 1], x);
    }
  }

  /** One insertion step: moves entry `i` left past every entry of strictly larger error. */
  method Insert(a: array<Residual>, i: nat, ghost orig: seq<Residual>)
    requires i < a.Length == |orig|
    requires forall k :: 0 <= k < a.Length ==> orig[k].index == k
    requires forall p, q :: 0 <= p < q < i ==> Before(a[p], a[q])
    requires forall k :: 0 <= k < i ==> a[k].index < i
    requires forall k :: i <= k < a.Length ==> a[k] == orig[k]
    requires FromOriginal(a[..], orig)
    modifies a
    ensures forall p, q :: 0 <= p < q < i + 1 ==> Before(a[p], a[q])
    ensures forall k :: 0 <= k < i + 1 ==> a[k].index < i + 1
    ensures forall k :: i + 1 <= k < a.Length ==> a[k] == orig[k]
    ensures FromOriginal(a[..], orig)
  {
    var x := a[i];
    var j := i;
    while j > 0 && a[j - 1].error > a[j].error
      invariant 0 <= j <= i
      invariant x == orig[i] && Inserting(a[..], j, i, x)
      invariant forall k :: i + 1 <= k < a.Length ==> a[k] == orig[k]
      invariant FromOriginal(a[..], orig)
    {
      ghost var s := a[..];
      a[j - 1], a[j] := a[j], a[j - 1];
      SwapLeft(s, a[..], j, i, x, orig);
      j := j - 1;
    }
    InsertDone(a[..], j, i, x);
  }
}
