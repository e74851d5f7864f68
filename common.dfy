/** Small value types and index-sequence helpers shared by every estimator module. */
module Common {

  datatype Option<T> = None | Some(value: T)

  /** The outcome of an operation that may throw: a value, or the exception it raised. */
  datatype Result<T, E> = Ok(value: T) | Err(error: E)

  /** The dataset indices 0..n-1. */
  function Range(n: nat): (r: set<nat>)
    ensures forall i: nat :: i in r <==> i < n
    ensures |r| == n
  {
    if n == 0 then {} else Range(n - 1) + {n - 1}
  }

  /** The set of indices listed in a sequence. */
  function SetOf(s: seq<nat>): set<nat>
  {
    set i | i in s
  }

  predicate Distinct(s: seq<nat>)
  {
    forall i, j :: 0 <= i < j < |s| ==> s[i] != s[j]
  }

  predicate StrictlyIncreasing(s: seq<nat>)
  {
    forall i, j :: 0 <= i < j < |s| ==> s[i] < s[j]
  }

  predicate AllBelow(s: seq<nat>, n: nat)
  {
    forall i :: 0 <= i < |s| ==> s[i] < n
  }

  /** Appending an index below the bound keeps every index below it. */
  lemma AllBelowAppend(s: seq<nat>, x: nat, n: nat)
    requires AllBelow(s, n) && x < n
    ensures AllBelow(s + [x], n)
  {
    assert forall i :: 0 <= i < |s| ==> (s + [x])[i] == s[i];
  }

  lemma AllBelowConcat(s: seq<nat>, t: seq<nat>, n: nat)
    requires AllBelow(s, n) && AllBelow(t, n)
    ensures AllBelow(s + t, n)
  {
    assert forall i :: |s| <= i < |s + t| ==> (s + t)[i] == t[i - |s|];
  }

  /** The data elements at the listed indices, in list order (a `List<D>` built with `add`). */
  function Elements<D>(data: seq<D>, order: seq<nat>): (r: seq<D>)
    requires AllBelow(order, |data|)
    ensures |r| == |order| && forall k :: 0 <= k < |order| ==> r[k] == data[order[k]]
  {
    seq(|order|, k requires 0 <= k < |order| => data[order[k]])
  }

  /** A duplicate-free list has as many indices as its set. */
  lemma {:induction false} DistinctCardinality(s: seq<nat>)
    requires Distinct(s)
    ensures |SetOf(s)| == |s|
  {
    if s != [] {
      var init := s[..|s| - 1];
      assert Distinct(init);
      DistinctCardinality(init);
      assert SetOf(s) == SetOf(init) + {s[|s| - 1]};
      assert s[|s| - 1] !in SetOf(init);
    }
  }

  /** The least element of a non-empty finite set. */
  ghost function Min(s: set<nat>): (x: nat)
    requires s != {}
    ensures x in s && forall y :: y in s ==> x <= y
  {
    MinExists(s);
    var x :| x in s && forall y :: y in s ==> x <= y; x
  }

  lemma {:induction false} MinExists(s: set<nat>)
    requires s != {}
    ensures exists x :: x in s && forall y :: y in s ==> x <= y
  {
    var x :| x in s;
    var rest := s - {x};
    if rest == {} {
      forall z | z in s
        ensures x <= z
      {
        assert z !in rest;
      }
      assert x in s && forall z :: z in s ==> x <= z;
    } else {
      MinExists(rest);
      var y :| y in rest && forall z :: z in rest ==> y <= z;
      var least := if x < y then x else y;
      forall z | z in s
        ensures least <= z
      {
        if z != x {
          assert z in rest;
        }
      }
      assert least in s && forall z :: z in s ==> least <= z;
    }
  }

  /** The members of a finite set listed in ascending order, each once. */
  ghost function Ascending(s: set<nat>): (r: seq<nat>)
    ensures |r| == |s| && SetOf(r) == s && StrictlyIncreasing(r)
    decreases |s|
  {
    if s == {} then []
    else
      var x := Min(s);
      var rest := Ascending(s - {x});
      PrependLeast(x, rest, s);
      [x] + rest
  }

  /** Listing a set of indices below a bound gives indices below the bound. */
  lemma AscendingBelow(s: set<nat>, n: nat)
    requires forall x :: x in s ==> x < n
    ensures AllBelow(Ascending(s), n)
  {
    var r := Ascending(s);
    assert forall i :: 0 <= i < |r| ==> r[i] in SetOf(r);
  }

  lemma PrependLeast(x: nat, rest: seq<nat>, s: set<nat>)
    requires x in s && forall y :: y in s ==> x <= y
    requires SetOf(rest) == s - {x} && StrictlyIncreasing(rest)
    ensures SetOf([x] + rest) == s && StrictlyIncreasing([x] + rest)
  {
    forall k | 0 <= k < |rest|
      ensures x < rest[k]
    {
      assert rest[k] in SetOf(rest);
    }
    assert SetOf([x] + rest) == {x} + SetOf(rest);
  }

  /** Two ascending lists of the same indices are the same list. */
  lemma {:induction false} AscendingUnique(a: seq<nat>, b: seq<nat>)
    requires StrictlyIncreasing(a) && StrictlyIncreasing(b)
    requires SetOf(a) == SetOf(b)
    ensures a == b
    decreases |a|
  {
    if a != [] {
      assert a[0] in SetOf(a);
    }
    if b != [] {
      assert b[0] in SetOf(b);
    }
    if a != [] && b != [] {
      assert a[0] in SetOf(b) && b[0] in SetOf(a);
      assert a[0] == b[0] by {
        var i :| 0 <= i < |b| && b[i] == a[0];
        var j :| 0 <= j < |a| && a[j] == b[0];
        assert b[0] <= a[0] && a[0] <= b[0];
      }
      assert SetOf(a[1..]) == SetOf(a) - {a[0]} by {
        assert forall x :: x in a[1..] ==> x != a[0];
        assert forall x :: x in a && x != a[0] ==> x in a[1..];
      }
      assert SetOf(b[1..]) == SetOf(b) - {b[0]} by {
        assert forall x :: x in b[1..] ==> x != b[0];
        assert forall x :: x in b && x != b[0] ==> x in b[1..];
      }
      AscendingUnique(a[1..], b[1..]);
      assert a == [a[0]] + a[1..] && b == [b[0]] + b[1..];
    }
  }

  /** The least `k` in [lo, hi] satisfying `p`, if any. */
  function FirstWhere(p: nat -> bool, lo: nat, hi: nat): (r: Option<nat>)
    ensures r.Some? ==> lo <= r.value <= hi
    decreases hi - lo
  {
    if lo > hi then None
    else if p(lo) then Some(lo)
    else FirstWhere(p, lo + 1, hi)
  }

  /** `FirstWhere` finds a value exactly when one in range satisfies `p`, and then the least. */
  lemma {:induction false} FirstWhereIsLeast(p: nat -> bool, lo: nat, hi: nat)
    ensures var r := FirstWhere(p, lo, hi);
      && (r.None? <==> forall k :: lo <= k <= hi ==> !p(k))
      && (r.Some? ==> p(r.value) && forall k :: lo <= k < r.value ==> !p(k))
    decreases hi - lo
  {
    if lo <= hi && !p(lo) {
      FirstWhereIsLeast(p, lo + 1, hi);
    }
  }

  /** Two tests that agree on [lo, hi] have the same least witness there. */
  lemma {:induction false} FirstWhereAgrees(p: nat -> bool, q: nat -> bool, lo: nat, hi: nat)
    requires forall k :: lo <= k <= hi ==> p(k) == q(k)
    ensures FirstWhere(p, lo, hi) == FirstWhere(q, lo, hi)
    decreases hi - lo
  {
    if lo <= hi {
      FirstWhereAgrees(p, q, lo + 1, hi);
    }
  }
}
