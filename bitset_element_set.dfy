/**
 * The element set backed by a bit set: the set bits are the members and `size` is the
 * bound below which an index counts as valid. Both fields are fixed at construction and
 * every query leaves the value as it was (a datatype value cannot change).
 */
module BitSetElementSets {
  import opened Common
  import opened BitSets
  import opened ElementSets

  datatype BitSetElementSet = BitSetElementSet(bitSet: set<nat>, size: int) {

    /** The number of members: the bit set's cardinality, whatever `size` says. */
    function Size(): int
    {
      |bitSet|
    }

    /** Throws for an index outside [0, size); otherwise answers membership. */
    function Contains(index: int): (r: Result<bool, IndexOutOfBounds>)
      ensures r.Err? <==> index < 0 || index >= size
      ensures r.Err? ==> r.error == IndexOutOfBounds(index)
      ensures r.Ok? ==> (r.value <==> index in bitSet)
    {
      if index < 0 || index >= size then Err(IndexOutOfBounds(index)) else Ok(index in bitSet)
    }

    /** `bitSet.nextSetBit(fromIndex)`, which throws for a negative start. */
    function NextElement(fromIndex: int): (r: Result<int, IndexOutOfBounds>)
      ensures fromIndex < 0 <==> r.Err?
      ensures r.Err? ==> r.error == IndexOutOfBounds(fromIndex)
      ensures r.Ok? ==> IsNext(bitSet, fromIndex, r.value)
    {
      if fromIndex < 0 then Err(IndexOutOfBounds(fromIndex)) else Ok(NextSetBit(bitSet, fromIndex))
    }

    /** This set seen through the element-set interface. */
    function View(): ElementSet
    {
      ElementSet(() => Size(), i => Contains(i), f => NextElement(f))
    }
  }

  /**
   * A bit-set view (with a non-negative bound, as every caller builds it) is an element set
   * over the data elements 0..n-1 exactly when its members are the set bits, every set bit
   * is a valid index, and its `size` bound is n.
   */
  lemma ViewIsElementSet(bs: BitSetElementSet, members: set<nat>, n: nat)
    requires 0 <= bs.size
    ensures IsElementSet(bs.View(), members, n) <==>
              members == bs.bitSet && bs.size == n && (forall x :: x in bs.bitSet ==> x < n)
  {
    var es := bs.View();
    if IsElementSet(es, members, n) {
      assert es.contains(bs.size) == bs.Contains(bs.size);
      assert es.contains(n) == bs.Contains(n);
      var r := es.nextElement(n).value;
      assert IsNext(members, n, r);
      assert IsNext(bs.bitSet, n, r);
      assert r == -1;
      forall x: nat
        ensures x in members <==> x in bs.bitSet
      {
        if x < n {
          assert es.contains(x) == Ok(x in members);
        }
      }
      assert members == bs.bitSet;
    } else if members == bs.bitSet && bs.size == n && (forall x :: x in bs.bitSet ==> x < n) {
      assert es.size() == |members|;
      assert forall i: int :: es.contains(i) == bs.Contains(i);
      assert forall f: int :: es.nextElement(f) == bs.NextElement(f);
      assert false;
    }
  }
}
