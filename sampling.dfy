/**
 * Drawing a random minimal sample, the loop both estimators share: draw indices in [0, n)
 * one at a time, skipping ones already drawn, until `m` distinct indices are collected.
 * The random number generator is replaced by the sequence of values it would return.
 */
module Sampling {
  import opened Common

  /** The draws with repeats removed, each index kept at its first occurrence. */
  function Dedup(s: seq<nat>): seq<nat>
  {
    if s == [] then []
    else
      var d := Dedup(s[..|s| - 1]);
      var x := s[|s| - 1];
      if x in d then d else d + [x]
  }

  /** The de-duplicated draws are distinct, hold every index drawn, and are no more numerous. */
  lemma {:induction false} DedupDistinct(s: seq<nat>)
    ensures Distinct(Dedup(s)) && SetOf(Dedup(s)) == SetOf(s) && |Dedup(s)| <= |s|
  {
    if s != [] {
      var init, x := s[..|s| - 1], s[|s| - 1];
      var d := Dedup(init);
      DedupDistinct(init);
      assert s == init + [x];
      assert SetOf(s) == SetOf(init) + {x};
      if x !in d {
        assert SetOf(d + [x]) == SetOf(d) + {x};
      }
    }
  }

  /** Taking one more draw never shortens the de-duplicated list. */
  lemma {:induction false} DedupGrows(s: seq<nat>, t: seq<nat>)
    requires s <= t
    ensures |Dedup(s)| <= |Dedup(t)| && Dedup(s) <= Dedup(t)
    decreases |t|
  {
    if |s| < |t| {
      DedupGrows(s, t[..|t| - 1]);
    } else {
      assert s == t;
    }
  }

  /** One more draw adds its index at the end, unless the index was drawn before. */
  lemma DedupAppend(s: seq<nat>, x: nat)
    ensures Dedup(s + [x]) == if x in Dedup(s) then Dedup(s) else Dedup(s) + [x]
  {
    assert (s + [x])[..|s|] == s;
  }

  /**
   * Where the sampling loop begun at `from` stops when it has reached position `k`: at the
   * first position whose draws since `from` hold `m` distinct indices, or at the end of the
   * draws.
   */
  function SampleEnd(m: nat, draws: seq<nat>, from: nat, k: nat): (e: nat)
    requires from <= k <= |draws|
    ensures k <= e <= |draws|
    decreases |draws| - k
  {
    if |Dedup(draws[from..k])| >= m || k == |draws| then k else SampleEnd(m, draws, from, k + 1)
  }

  /** The draws from `from` up to `j` hold fewer than `m` distinct indices. */
  predicate Incomplete(m: nat, draws: seq<nat>, from: nat, j: nat)
    requires from <= j <= |draws|
  {
    |Dedup(draws[from..j])| < m
  }

  /**
   * The loop stops at the first position that completes the sample: every earlier position
   * holds fewer than `m` distinct indices, and the stopping one holds exactly `m`, or fewer
   * when the draws have run out.
   */
  lemma {:induction false} SampleEndIsFirst(m: nat, draws: seq<nat>, from: nat, k: nat)
    requires from <= k <= |draws|
    requires forall j :: from <= j < k ==> Incomplete(m, draws, from, j)
    ensures forall j :: from <= j < SampleEnd(m, draws, from, k) ==> Incomplete(m, draws, from, j)
    ensures |Dedup(draws[from..SampleEnd(m, draws, from, k)])| == m
      || (SampleEnd(m, draws, from, k) == |draws| && |Dedup(draws[from..|draws|])| < m)
    decreases |draws| - k
  {
    if from < k {
      DedupSliceStep(draws, from, k);
      assert Incomplete(m, draws, from, k - 1);
    } else {
      assert draws[from..k] == [];
    }
    if |Dedup(draws[from..k])| >= m || k == |draws| {
      assert SampleEnd(m, draws, from, k) == k;
    } else {
      assert Incomplete(m, draws, from, k);
      SampleEndIsFirst(m, draws, from, k + 1);
      assert SampleEnd(m, draws, from, k) == SampleEnd(m, draws, from, k + 1);
    }
  }

  /** One more draw adds at most one index to the de-duplicated draws. */
  lemma DedupSliceStep(draws: seq<nat>, from: nat, k: nat)
    requires from < k <= |draws|
    ensures |Dedup(draws[from..k])| <= |Dedup(draws[from..k - 1])| + 1
  {
    assert draws[from..k] == draws[from..k - 1] + [draws[k - 1]];
    DedupAppend(draws[from..k - 1], draws[k - 1]);
  }

  /**
   * A position where the draws since `from` first hold `m` distinct indices, or the end of
   * the draws reached with fewer, is where the sampling loop stops.
   */
  lemma SampleEndAt(m: nat, draws: seq<nat>, from: nat, e: nat)
    requires from <= e <= |draws|
    requires from < e ==> |Dedup(draws[from..e - 1])| < m
    requires |Dedup(draws[from..e])| >= m || e == |draws|
    ensures SampleEnd(m, draws, from, from) == e
  {
    forall j | from <= j < e
      ensures Incomplete(m, draws, from, j)
    {
      DedupGrows(draws[from..j], draws[from..e - 1]);
    }
    SampleEndReaches(m, draws, from, from, e);
  }

  lemma {:induction false} SampleEndReaches(m: nat, draws: seq<nat>, from: nat, k: nat, e: nat)
    requires from <= k <= e <= |draws|
    requires forall j :: k <= j < e ==> Incomplete(m, draws, from, j)
    requires |Dedup(draws[from..e])| >= m || e == |draws|
    ensures SampleEnd(m, draws, from, k) == e
    decreases e - k
  {
    if k < e {
      assert Incomplete(m, draws, from, k);
      SampleEndReaches(m, draws, from, k + 1, e);
    }
  }

  /**
   * The successive samples the sampling loop collects when it is restarted after each one,
   * beginning at position `from`. A rest of the draws too short to complete a sample ends
   * the list.
   */
  function Samples(m: nat, draws: seq<nat>, from: nat): seq<seq<nat>>
    requires 1 <= m && from <= |draws|
    decreases |draws| - from
  {
    var end := SampleEnd(m, draws, from, from);
    var sample := Dedup(draws[from..end]);
    if |sample| < m then []
    else
      assert end != from by { assert draws[from..from] == []; }
      [sample] + Samples(m, draws, end)
  }

  /** The first sample from `from` on ends where the sampling loop stops. */
  lemma SamplesFirst(m: nat, draws: seq<nat>, from: nat, order: seq<nat>, next: nat)
    requires 1 <= m && from <= |draws|
    requires next == SampleEnd(m, draws, from, from) && order == Dedup(draws[from..next])
    ensures |order| < m ==> Samples(m, draws, from) == []
    ensures |order| >= m ==> Samples(m, draws, from) == [order] + Samples(m, draws, next)
  {
  }

  /** Every sample holds exactly `m` distinct indices below `n`. */
  predicate MinimalSamples(samples: seq<seq<nat>>, n: nat, m: nat)
  {
    forall j :: 0 <= j < |samples| ==>
      |samples[j]| == m && Distinct(samples[j]) && AllBelow(samples[j], n)
  }

  /** Draws below `n` give samples of `m` distinct indices below `n`. */
  lemma {:induction false} SamplesValid(n: nat, m: nat, draws: seq<nat>, from: nat)
    requires 1 <= m && from <= |draws|
    requires forall k :: from <= k < |draws| ==> draws[k] < n
    ensures MinimalSamples(Samples(m, draws, from), n, m)
    decreases |draws| - from
  {
    var end := SampleEnd(m, draws, from, from);
    var sample := Dedup(draws[from..end]);
    SampleEndIsFirst(m, draws, from, from);
    if |sample| >= m {
      DedupDistinct(draws[from..end]);
      assert AllBelow(sample, n) by {
        forall i | 0 <= i < |sample|
          ensures sample[i] < n
        {
          assert sample[i] in SetOf(draws[from..end]);
        }
      }
      SamplesValid(n, m, draws, end);
    }
  }

  /**
   * The samples run out exactly where the remaining draws hold fewer than `m` distinct
   * indices.
   */
  lemma {:induction false} NoSampleLeft(m: nat, draws: seq<nat>, from: nat)
    requires 1 <= m && from <= |draws|
    ensures Samples(m, draws, from) == [] <==> |Dedup(draws[from..])| < m
  {
    var end := SampleEnd(m, draws, from, from);
    SampleEndIsFirst(m, draws, from, from);
    DedupGrows(draws[from..end], draws[from..]);
    assert draws[from..|draws|] == draws[from..];
  }

  /** Taking the next sample moves it from the samples still to come to those taken. */
  lemma TakeSample(all: seq<seq<nat>>, taken: seq<seq<nat>>, sample: seq<nat>,
                   later: seq<seq<nat>>, rest: seq<seq<nat>>)
    requires all == taken + later && later == [sample] + rest
    ensures all == (taken + [sample]) + rest && all[..|taken|] == taken
  {
    assert (taken + [sample]) + rest == taken + ([sample] + rest);
  }

  /**
   * The sampling loop's state after reading the draws from `from` up to `next`: `order` is
   * the de-duplicated draws and `mask` its set, below `n`, and the sample was not complete
   * one draw earlier.
   */
  ghost predicate Drawing(n: nat, m: nat, draws: seq<nat>, from: nat, next: nat, order: seq<nat>, mask: set<nat>)
  {
    && from <= next <= |draws|
    && order == Dedup(draws[from..next]) && mask == SetOf(order)
    && AllBelow(order, n) && |order| <= m
    && (from < next ==> |Dedup(draws[from..next - 1])| < m)
  }

  /** One more draw: the index joins the sample, and its set, unless it was drawn before. */
  lemma DrawStep(n: nat, m: nat, draws: seq<nat>, from: nat, next: nat, order: seq<nat>, mask: set<nat>)
    requires Drawing(n, m, draws, from, next, order, mask)
    requires |order| < m && next < |draws| && draws[next] < n
    ensures draws[next] in mask ==> Drawing(n, m, draws, from, next + 1, order, mask)
    ensures draws[next] !in mask ==>
              Drawing(n, m, draws, from, next + 1, order + [draws[next]], mask + {draws[next]})
  {
    var x := draws[next];
    assert draws[from..next + 1] == draws[from..next] + [x];
    DedupAppend(draws[from..next], x);
    assert x in mask <==> x in order;
    if x !in mask {
      AllBelowAppend(order, x, n);
      assert SetOf(order + [x]) == SetOf(order) + {x};
    }
  }

  /**
   * The sampling loop, reading draws from position `from`. On success (`ok`) the sample
   * `order` holds exactly `m` distinct indices below `n`, in the order first drawn, `mask`
   * is its set, and `next` is the first position not used: the loop stopped at the first
   * draw that completed the sample. Without enough draws left it reports `!ok`.
   */
  method DrawSample(n: nat, m: nat, draws: seq<nat>, from: nat)
    returns (ok: bool, order: seq<nat>, mask: set<nat>, next: nat)
    requires from <= |draws|
    requires forall k :: from <= k < |draws| ==> draws[k] < n
    ensures from <= next <= |draws|
    ensures order == Dedup(draws[from..next]) && mask == SetOf(order)
    ensures Distinct(order) && AllBelow(order, n)
    ensures ok <==> |order| == m
    ensures from < next ==> |Dedup(draws[from..next - 1])| < m
    ensures !ok ==> next == |draws| && |order| < m
    ensures next == SampleEnd(m, draws, from, from)
  {
    order, mask, next := [], {}, from;
    while |order| < m && next < |draws|
      invariant Drawing(n, m, draws, from, next, order, mask)
      decreases |draws| - next
    {
      var index := draws[next];
      DrawStep(n, m, draws, from, next, order, mask);
      if index !in mask {
        order := order + [index];
        mask := mask + {index};
      }
      next := next + 1;
    }
    ok := |order| == m;
    DedupDistinct(draws[from..next]);
    SampleEndAt(m, draws, from, next);
  }
}
