/** The NumPy operations that the calibration script applies to whole arrays:
    boolean-mask selection `xs[mask]`, element-wise `&` of masks, counting, and
    `np.argmax` over an array of floats that may hold NaN. */
module ArrayOps {
  import opened Wrappers

  /** Number of true entries of a mask. */
  function CountTrue(keep: seq<bool>): (c: nat)
    ensures c <= |keep|
  {
    if |keep| == 0 then 0
    else CountTrue(keep[..|keep| - 1]) + (if keep[|keep| - 1] then 1 else 0)
  }

  /** `CountTrue` is the number of positions at which the mask is true. */
  lemma CountTrueIsCardinality(keep: seq<bool>)
    ensures CountTrue(keep) == |set i | 0 <= i < |keep| && keep[i]|
  {
    CountTruePrefix(keep, |keep|);
    assert keep[..|keep|] == keep;
  }

  lemma {:induction false} CountTruePrefix(keep: seq<bool>, m: nat)
    requires m <= |keep|
    ensures CountTrue(keep[..m]) == |set i | 0 <= i < m && keep[i]|
  {
    if m > 0 {
      CountTruePrefix(keep, m - 1);
      assert keep[..m][..m - 1] == keep[..m - 1];
      var before := set i | 0 <= i < m - 1 && keep[i];
      var all := set i | 0 <= i < m && keep[i];
      assert m - 1 !in before;
      if keep[m - 1] {
        assert all == before + {m - 1};
      } else {
        assert all == before;
      }
    }
  }

  /** The positions at which a mask is true, in increasing order. */
  function TrueIndices(keep: seq<bool>): (r: seq<nat>)
    ensures |r| == CountTrue(keep)
    ensures forall k :: 0 <= k < |r| ==> r[k] < |keep| && keep[r[k]]
    ensures forall k, l :: 0 <= k < l < |r| ==> r[k] < r[l]
    ensures forall i :: 0 <= i < |keep| && keep[i] ==> i in r
  {
    if |keep| == 0 then []
    else TrueIndices(keep[..|keep| - 1]) + (if keep[|keep| - 1] then [|keep| - 1] else [])
  }

  /** `xs[keep]`: the elements of `xs` where `keep` is true, in their original order. */
  function Mask<T>(xs: seq<T>, keep: seq<bool>): (r: seq<T>)
    requires |xs| == |keep|
    ensures |r| == CountTrue(keep)
  {
    if |xs| == 0 then []
    else Mask(xs[..|xs| - 1], keep[..|keep| - 1]) + (if keep[|keep| - 1] then [xs[|xs| - 1]] else [])
  }

  /** Element `k` of a masked array is the element of the original array at the
      `k`-th true position of the mask. */
  lemma {:induction false} MaskAt<T>(xs: seq<T>, keep: seq<bool>, k: nat)
    requires |xs| == |keep| && k < CountTrue(keep)
    ensures k < |TrueIndices(keep)| && TrueIndices(keep)[k] < |xs|
    ensures Mask(xs, keep)[k] == xs[TrueIndices(keep)[k]]
  {
    var n := |xs|;
    if k < CountTrue(keep[..n - 1]) {
      MaskAt(xs[..n - 1], keep[..n - 1], k);
    }
  }

  /** `MaskAt` for every position at once. */
  lemma MaskAll<T>(xs: seq<T>, keep: seq<bool>)
    requires |xs| == |keep|
    ensures |TrueIndices(keep)| == |Mask(xs, keep)|
    ensures forall k :: 0 <= k < |Mask(xs, keep)| ==>
              TrueIndices(keep)[k] < |xs| && Mask(xs, keep)[k] == xs[TrueIndices(keep)[k]]
  {
    forall k | 0 <= k < |Mask(xs, keep)|
      ensures TrueIndices(keep)[k] < |xs| && Mask(xs, keep)[k] == xs[TrueIndices(keep)[k]]
    {
      MaskAt(xs, keep, k);
    }
  }

  /** A selected position `k` appears in the masked array, at its rank `s`
      among the selected positions. */
  lemma MaskRank<T>(xs: seq<T>, keep: seq<bool>, k: nat) returns (s: nat)
    requires |xs| == |keep| && k < |keep| && keep[k]
    ensures s < |TrueIndices(keep)| && TrueIndices(keep)[s] == k
    ensures s < |Mask(xs, keep)| && Mask(xs, keep)[s] == xs[k]
  {
    var idx := TrueIndices(keep);
    assert k in idx;
    s :| 0 <= s < |idx| && idx[s] == k;
    MaskAt(xs, keep, s);
  }

  /** Element-wise `a & b` of two masks of one length. */
  function And(a: seq<bool>, b: seq<bool>): (r: seq<bool>)
    requires |a| == |b|
    ensures |r| == |a|
    ensures forall i :: 0 <= i < |a| ==> r[i] == (a[i] && b[i])
  {
    seq(|a|, i requires 0 <= i < |a| => a[i] && b[i])
  }

  /** Adding a condition to a mask never selects more elements. */
  lemma {:induction false} CountTrueAnd(a: seq<bool>, b: seq<bool>)
    requires |a| == |b|
    ensures CountTrue(And(a, b)) <= CountTrue(a)
  {
    var n := |a|;
    if n > 0 {
      assert And(a, b)[..n - 1] == And(a[..n - 1], b[..n - 1]);
      CountTrueAnd(a[..n - 1], b[..n - 1]);
    }
  }

  /** `np.argmax` over floats that may be NaN (None): NaN compares as the largest
      value, and among equal maxima the first occurrence is returned. */
  function ArgMax(s: seq<Option<real>>): (k: nat)
    requires |s| > 0
    ensures k < |s|
    ensures s[k].None? ==> forall j :: 0 <= j < k ==> s[j].Some?
    ensures s[k].Some? ==> forall j :: 0 <= j < |s| ==> s[j].Some? && s[j].value <= s[k].value
    ensures s[k].Some? ==> forall j :: 0 <= j < k ==> s[j].Some? && s[j].value < s[k].value
  {
    if |s| == 1 then 0
    else
      var k := ArgMax(s[..|s| - 1]);
      var last := |s| - 1;
      if s[k].None? then k
      else if s[last].None? || s[last].value > s[k].value then last
      else k
  }

  /** The contract of `ArgMax` determines the index completely. */
  predicate IsArgMax(s: seq<Option<real>>, k: nat)
  {
    && k < |s|
    && (s[k].None? ==> forall j :: 0 <= j < k ==> s[j].Some?)
    && (s[k].Some? ==> forall j :: 0 <= j < |s| ==> s[j].Some? && s[j].value <= s[k].value)
    && (s[k].Some? ==> forall j :: 0 <= j < k ==> s[j].Some? && s[j].value < s[k].value)
  }

  lemma ArgMaxUnique(s: seq<Option<real>>, k: nat)
    requires |s| > 0 && IsArgMax(s, k)
    ensures k == ArgMax(s)
  {
  }
}
