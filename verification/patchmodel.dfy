/**
 * `patch_slices` (landshark/model.py): cuts the flattened categorical input,
 * one patch of values per feature, into one slice per feature.
 */
module PatchModel {
  import opened Py
  import Util

  /** A Python `slice(start, stop)`. */
  datatype Slice = Slice(start: int, stop: int)

  /**
   * `patch_slices`: `slice(b, e)` for `b`, `e` zipped from the two ranges.
   * There is one slice per categorical feature, and the k-th covers that
   * feature's patch of the flattened input.
   */
  function PatchSlices(halfwidth: int, nfeaturesCat: int): (s: seq<Slice>)
    ensures |s| == Max(0, nfeaturesCat)
    ensures forall k :: 0 <= k < |s| ==>
      s[k] == Slice(k * Util.PatchSize(halfwidth), (k + 1) * Util.PatchSize(halfwidth))
  {
    var npatch := Util.PatchSize(halfwidth);
    var dim := npatch * nfeaturesCat;
    var begin := Range(0, dim, npatch);
    var end := Range(npatch, dim + npatch, npatch);
    RangeOfMultiple(0, npatch, nfeaturesCat);
    assert dim + npatch == npatch + nfeaturesCat * npatch;
    RangeOfMultiple(npatch, npatch, nfeaturesCat);
    assert forall k :: 0 <= k < nfeaturesCat ==> end[k] == (k + 1) * npatch by {
      forall k | 0 <= k < nfeaturesCat
        ensures npatch + k * npatch == (k + 1) * npatch
      {
      }
    }
    seq(Min(|begin|, |end|), i requires 0 <= i < Min(|begin|, |end|) => Slice(begin[i], end[i]))
  }

  /**
   * The slices tile the flattened input `[0, npatch * nfeatures_cat)`: the
   * first starts at 0, each stops where the next starts, the last stops at
   * the end, and each is one patch long.
   */
  lemma PatchSlicesTile(halfwidth: int, nfeaturesCat: int)
    requires nfeaturesCat > 0
    ensures var s := PatchSlices(halfwidth, nfeaturesCat);
      && s[0].start == 0
      && s[|s| - 1].stop == Util.PatchSize(halfwidth) * nfeaturesCat
      && (forall k :: 0 <= k < |s| - 1 ==> s[k].stop == s[k + 1].start)
      && (forall k :: 0 <= k < |s| ==> s[k].stop - s[k].start == Util.PatchSize(halfwidth))
  {
    var npatch := Util.PatchSize(halfwidth);
    assert (nfeaturesCat - 1 + 1) * npatch == npatch * nfeaturesCat;
  }
}
