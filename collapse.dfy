/** After the plate loop, the list of PLATEIDs (and likewise of MJDs) is
    collapsed to a single number: the shared value when every plate file
    carried the same one, 0 otherwise. */
module PlateCollapse {

  /** `plate[0] if len(set(plate)) == 1 else 0` */
  function Collapse(xs: seq<int>): int
  {
    if |set x | x in xs| == 1 then xs[0] else 0
  }

  predicate AllEqual(xs: seq<int>)
  {
    forall i :: 0 <= i < |xs| ==> xs[i] == xs[0]
  }

  /** The collapsed value is the common value of a non-empty list whose
      entries all agree, and 0 for an empty list or one with two different
      entries. */
  lemma CollapseMeaning(xs: seq<int>)
    ensures |xs| > 0 && AllEqual(xs) ==> Collapse(xs) == xs[0]
    ensures !(|xs| > 0 && AllEqual(xs)) ==> Collapse(xs) == 0
  {
    var values := set x | x in xs;
    if |xs| > 0 && AllEqual(xs) {
      assert values == {xs[0]};
    } else if |xs| > 0 {
      var i :| 0 <= i < |xs| && xs[i] != xs[0];
      assert {xs[0], xs[i]} <= values;
      SubsetCard({xs[0], xs[i]}, values);
    } else {
      assert values == {};
    }
  }

  lemma SubsetCard(a: set<int>, b: set<int>)
    requires a <= b
    ensures |a| <= |b|
  {
    assert b == a + (b - a);
  }

  /** A single plate file's PLATEID is kept as it is. */
  lemma CollapseSingle(x: int)
    ensures Collapse([x]) == x
  {
    CollapseMeaning([x]);
  }
}
