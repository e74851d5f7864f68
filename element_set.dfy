/**
 * The read-only subset view handed to observers: a set of dataset indices that can be asked
 * for its size, for membership of an index, and for the next member at or after an index.
 * The interface is a record of its three queries; `IsElementSet` is the contract every
 * implementation promises.
 */
module ElementSets {
  import opened Common

  datatype IndexOutOfBounds = IndexOutOfBounds(index: int)

  /** An element set, given by its three side-effect-free queries. */
  datatype ElementSet = ElementSet(
    size: () -> int,
    contains: int -> Result<bool, IndexOutOfBounds>,
    nextElement: int -> Result<int, IndexOutOfBounds>)

  /** `r` is the first member at or after `from`, or -1 when there is none. */
  ghost predicate IsNext(members: set<nat>, from: int, r: int)
  {
    || (r == -1 && forall x :: x in members ==> x < from)
    || (0 <= r && from <= r && r in members && forall x :: x in members && from <= x ==> r <= x)
  }

  /**
   * `es` is a subset of the data elements 0..n-1 holding exactly `members`: `size()` counts
   * them, `contains` answers for a valid index and throws for any other, and `nextElement`
   * has the semantics of `BitSet.nextSetBit` (throwing for a negative start).
   */
  ghost predicate IsElementSet(es: ElementSet, members: set<nat>, n: nat)
  {
    && (forall x :: x in members ==> x < n)
    && es.size() == |members|
    && (forall i: int :: es.contains(i) == if 0 <= i < n then Ok(i in members) else Err(IndexOutOfBounds(i)))
    && (forall f: int :: f < 0 ==> es.nextElement(f) == Err(IndexOutOfBounds(f)))
    && (forall f: int :: 0 <= f ==> es.nextElement(f).Ok? && IsNext(members, f, es.nextElement(f).value))
  }

  /**
   * The documented traversal `for (i = nextElement(0); i >= 0; i = nextElement(i + 1))`:
   * it ends, and it visits every member once, in ascending order.
   */
  method Traverse(es: ElementSet, ghost members: set<nat>, ghost n: nat) returns (visited: seq<nat>)
    requires IsElementSet(es, members, n)
    ensures visited == Ascending(members)
  {
    visited := [];
    ghost var from: nat := 0;
    var i := es.nextElement(0).value;
    while i >= 0
      invariant from <= n
      invariant IsNext(members, from, i)
      invariant StrictlyIncreasing(visited)
      invariant forall k :: 0 <= k < |visited| ==> visited[k] < from
      invariant SetOf(visited) == set x | x in members && x < from
      decreases n - from
    {
      assert SetOf(visited + [i]) == SetOf(visited) + {i};
      visited := visited + [i];
      from := i + 1;
      i := es.nextElement(i + 1).value;
    }
    assert SetOf(visited) == members;
    AscendingUnique(visited, Ascending(members));
  }
}
