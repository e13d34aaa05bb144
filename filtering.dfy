/** Order-preserving selection from a sequence: the shape shared by the
    recommendation loop and the name-lookup list comprehension. */
module Filtering {

  /** Positions `j` of `s` with `keep(s[j])`, in increasing order. */
  function FilterIndices<T>(s: seq<T>, keep: T -> bool): (idx: seq<nat>)
    ensures forall k :: 0 <= k < |idx| ==> idx[k] < |s| && keep(s[idx[k]])
    ensures forall a, b :: 0 <= a < b < |idx| ==> idx[a] < idx[b]
    ensures forall j :: 0 <= j < |s| ==> (keep(s[j]) <==> j in idx)
    ensures |idx| <= |s|
  {
    if s == [] then []
    else
      var n := |s| - 1;
      FilterIndices(s[..n], keep) + (if keep(s[n]) then [n] else [])
  }

  /** The elements of `s` that satisfy `keep`, in the order of `s`. */
  function Filter<T>(s: seq<T>, keep: T -> bool): (r: seq<T>)
    ensures |r| == |FilterIndices(s, keep)|
    ensures forall k :: 0 <= k < |r| ==> r[k] == s[FilterIndices(s, keep)[k]]
  {
    if s == [] then []
    else
      var n := |s| - 1;
      Filter(s[..n], keep) + (if keep(s[n]) then [s[n]] else [])
  }

  /** Every selected element is an element of `s` that satisfies `keep`. */
  lemma FilterSound<T>(s: seq<T>, keep: T -> bool, x: T)
    requires x in Filter(s, keep)
    ensures x in s && keep(x)
  {
    var r := Filter(s, keep);
    var k :| 0 <= k < |r| && r[k] == x;
    assert r[k] == s[FilterIndices(s, keep)[k]];
  }

  /** Every element of `s` that satisfies `keep` is selected. */
  lemma FilterComplete<T>(s: seq<T>, keep: T -> bool, j: nat)
    requires j < |s| && keep(s[j])
    ensures s[j] in Filter(s, keep)
  {
    var idx := FilterIndices(s, keep);
    var k :| 0 <= k < |idx| && idx[k] == j;
    assert Filter(s, keep)[k] == s[j];
  }

  /** The selection is empty exactly when no element satisfies `keep`. */
  lemma FilterEmpty<T>(s: seq<T>, keep: T -> bool)
    ensures Filter(s, keep) == [] <==> forall j :: 0 <= j < |s| ==> !keep(s[j])
  {
    var idx := FilterIndices(s, keep);
    if idx != [] {
      assert keep(s[idx[0]]);
    }
  }

  /** Two predicates that agree on every element select the same elements. */
  lemma {:induction false} FilterAgrees<T>(s: seq<T>, keep: T -> bool, keep': T -> bool)
    requires forall j :: 0 <= j < |s| ==> keep(s[j]) == keep'(s[j])
    ensures FilterIndices(s, keep) == FilterIndices(s, keep')
    ensures Filter(s, keep) == Filter(s, keep')
  {
    if s != [] {
      FilterAgrees(s[..|s| - 1], keep, keep');
    }
  }
}
