/**
 * The two scans of `java.util.BitSet` that the estimators rely on, over a bit set
 * represented by the set of its set bits.
 */
module BitSets {
  import opened Common

  /** Some number above every set bit (the bit set's logical length or more). */
  ghost function Bound(bits: set<nat>): (b: nat)
    ensures forall x :: x in bits ==> x < b
  {
    if bits == {} then 0
    else
      var x :| x in bits;
      var b := Bound(bits - {x});
      assert forall y :: y in bits ==> y == x || y in bits - {x};
      if x + 1 > b then x + 1 else b
  }

  /** `nextSetBit(from)` for `from >= 0`: the least set bit at or after `from`, or -1. */
  function NextSetBit(bits: set<nat>, from: nat): (r: int)
    ensures r == -1 <==> forall x :: x in bits ==> x < from
    ensures r != -1 ==> from <= r && r in bits && forall x :: x in bits && from <= x ==> r <= x
    decreases Bound(bits) - from
  {
    if forall x :: x in bits ==> x < from then -1
    else if from in bits then from
    else NextSetBit(bits, from + 1)
  }

  /** `nextClearBit(from)`: the least clear bit at or after `from`; a set bit set always has one. */
  function NextClearBit(bits: set<nat>, from: nat): (r: nat)
    ensures from <= r && r !in bits
    ensures forall x :: from <= x < r ==> x in bits
    decreases |set x | x in bits && x >= from|
  {
    if from !in bits then from
    else
      var later := set x | x in bits && x >= from + 1;
      var here := set x | x in bits && x >= from;
      assert here == later + {from} && from !in later;
      NextClearBit(bits, from + 1)
  }
}
