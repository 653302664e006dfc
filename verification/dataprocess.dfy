/**
 * The read paths of landshark/dataprocess.py: `_process_training` reads the
 * patches of a batch of points straight from the feature arrays,
 * `_process_query` reads them through the row cache; and `_islice_batched`,
 * which takes the first `n` rows of a stream of batches.
 *
 * The conversions between world coordinates and image indices and the
 * computation of the read and mask ops (`patch.patches`) are not part of
 * this model: the op lists and the number of points are inputs.
 */
module DataProcess {
  import opened Py
  import opened Seqs
  import opened PatchRead
  import opened RowCache
  import Util

  // ---------------------------------------------------------------------
  // _islice_batched
  // ---------------------------------------------------------------------

  /** Taking the first `n` rows of `done + arr`, when `done` has fewer than `n`, takes all of `done`. */
  lemma TakeAppend<R>(done: seq<R>, arr: seq<R>, n: int)
    requires |done| < n
    ensures done[..Min(Max(n, 0), |done|)] + Slice(arr, 0, n - |done|)
            == (done + arr)[..Min(Max(n, 0), |done| + |arr|)]
  {
    var m := Min(n - |done|, |arr|);
    assert Slice(arr, 0, n - |done|) == arr[..m];
    assert done[..Min(Max(n, 0), |done|)] == done;
    assert Min(Max(n, 0), |done| + |arr|) == |done| + m;
    assert (done + arr)[..|done| + m] == done + arr[..m];
  }

  /** One pass of the loop of `_islice_batched` keeps the output equal to the first `n` rows seen so far. */
  lemma IsliceStep<R>(batches: seq<seq<R>>, j: nat, out: seq<seq<R>>, n: int)
    requires j < |batches| && |Flatten(batches[..j])| < n
    requires Flatten(out) == Flatten(batches[..j])[..Min(Max(n, 0), |Flatten(batches[..j])|)]
    ensures |Flatten(batches[..j + 1])| == |Flatten(batches[..j])| + |batches[j]|
    ensures Flatten(out + [Slice(batches[j], 0, n - |Flatten(batches[..j])|)])
            == Flatten(batches[..j + 1])[..Min(Max(n, 0), |Flatten(batches[..j + 1])|)]
  {
    assert batches[..j + 1] == batches[..j] + [batches[j]];
    FlattenAppend(batches[..j], batches[j]);
    FlattenAppend(out, Slice(batches[j], 0, n - |Flatten(batches[..j])|));
    TakeAppend(Flatten(batches[..j]), batches[j], n);
  }

  /**
   * `_islice_batched(it, n)` run to completion over the batches `batches`:
   * while `n` is positive, the next batch is taken, its first `n` rows are
   * yielded and `n` drops by the batch's length. Running out of batches
   * first raises `RuntimeError` (a `StopIteration` inside a generator).
   */
  method IsliceBatched<R>(batches: seq<seq<R>>, n: int) returns (out: seq<seq<R>>, r: Outcome<Exception>)
    ensures |out| <= |batches|
    ensures forall k :: 0 <= k < |out| ==> out[k] <= batches[k]
    ensures r == if n > |Flatten(batches)| then Fail(RuntimeError) else Pass
    ensures Flatten(out) == Flatten(batches)[..Min(Max(n, 0), |Flatten(batches)|)]
    ensures n <= 0 ==> out == []
  {
    var remaining := n;
    var j := 0;
    out := [];
    while remaining > 0
      invariant 0 <= j <= |batches| && |out| == j
      invariant remaining == n - |Flatten(batches[..j])|
      invariant j > 0 ==> n > 0
      invariant forall k :: 0 <= k < j ==> out[k] <= batches[k]
      invariant Flatten(out) == Flatten(batches[..j])[..Min(Max(n, 0), |Flatten(batches[..j])|)]
      decreases |batches| - j
    {
      if j == |batches| {
        assert batches[..j] == batches;
        return out, Fail(RuntimeError);
      }
      var arr := batches[j];
      var k := |arr|;
      IsliceStep(batches, j, out, n);
      out := out + [Slice(arr, 0, remaining)];
      remaining := remaining - k;
      j := j + 1;
    }
    FlattenSplit(batches, j);
    assert batches[..j] <= batches;
    r := Pass;
  }

  // ---------------------------------------------------------------------
  // Training and query reads
  // ---------------------------------------------------------------------

  /** `2 * halfwidth + 1`: the side of a patch, whose square is the patch size. */
  function PatchWidth(halfwidth: int): (pw: int)
    ensures pw * pw == Util.PatchSize(halfwidth)
    ensures pw > 0 <==> halfwidth >= 0
  {
    2 * halfwidth + 1
  }

  /** The arrays of an `H5Features`: each of the two may be absent. */
  datatype FeatureSource<C, K> = FeatureSource(continuous: Option<FeatureArray<C>>, categorical: Option<FeatureArray<K>>)

  /** The patch arrays of a `DataArrays`: `None` where that feature type is not read. */
  datatype PatchArrays<C, K> = PatchArrays(con: Option<Patches<C>>, cat: Option<Patches<K>>)

  /** `if feature_source.continuous:`: absent, or an array of no rows, tests false. */
  predicate Present<T>(a: Option<FeatureArray<T>>)
  {
    a.Some? && |a.value.rows| > 0
  }

  /** What the readers assert, for every array that is read. */
  predicate ReadsAllowed<C, K>(fs: FeatureSource<C, K>, npatches: int, halfwidth: int)
  {
    Present(fs.continuous) || Present(fs.categorical) ==> npatches > 0 && halfwidth >= 0
  }

  /** The continuous array is read first, so its error is the one raised. */
  function Combine<C, K>(con: Option<Result<Patches<C>, Exception>>, cat: Option<Result<Patches<K>, Exception>>)
    : Result<PatchArrays<C, K>, Exception>
  {
    if con.Some? && con.value.Failure? then Failure(con.value.error)
    else if cat.Some? && cat.value.Failure? then Failure(cat.value.error)
    else Success(PatchArrays(if con.Some? then Some(con.value.value) else None,
                             if cat.Some? then Some(cat.value.value) else None))
  }

  /** The patches of one array, read from the array itself. */
  function DirectPatches<T(==)>(a: FeatureArray<T>, patchReads: seq<ReadOp>, maskReads: seq<MaskOp>,
                                npatches: nat, halfwidth: nat, zero: T): Result<Patches<T>, Exception>
  {
    Assemble(Direct(a.rows), a.nfeatures, a.missing, patchReads, maskReads, npatches, PatchWidth(halfwidth), zero)
  }

  /** The patches of one array, read through the row cache of the rows the read ops touch. */
  function CachedPatches<T(==)>(a: FeatureArray<T>, patchReads: seq<ReadOp>, maskReads: seq<MaskOp>,
                                npatches: nat, halfwidth: nat, zero: T): Result<Patches<T>, Exception>
  {
    Assemble(Cached(RowDict(SlicesFromPatches(patchReads), a.rows)), a.nfeatures, a.missing,
             patchReads, maskReads, npatches, PatchWidth(halfwidth), zero)
  }

  /**
   * The patch arrays `_process_training` builds: a patch array exactly for
   * each present feature array, read directly; the continuous array's error
   * is the one raised, and a direct read can only raise IndexError.
   */
  function TrainingArrays<C(==), K(==)>(fs: FeatureSource<C, K>, patchReads: seq<ReadOp>, maskReads: seq<MaskOp>,
                                        npatches: int, halfwidth: int, zeroC: C, zeroK: K)
    : (r: Result<PatchArrays<C, K>, Exception>)
    requires ReadsAllowed(fs, npatches, halfwidth)
    ensures r.Success? <==>
      && (Present(fs.continuous) ==> DirectPatches(fs.continuous.value, patchReads, maskReads, npatches, halfwidth, zeroC).Success?)
      && (Present(fs.categorical) ==> DirectPatches(fs.categorical.value, patchReads, maskReads, npatches, halfwidth, zeroK).Success?)
    ensures r.Success? ==> (r.value.con.Some? <==> Present(fs.continuous)) && (r.value.cat.Some? <==> Present(fs.categorical))
    ensures r.Success? && Present(fs.continuous) ==>
      DirectPatches(fs.continuous.value, patchReads, maskReads, npatches, halfwidth, zeroC) == Success(r.value.con.value)
    ensures r.Success? && Present(fs.categorical) ==>
      DirectPatches(fs.categorical.value, patchReads, maskReads, npatches, halfwidth, zeroK) == Success(r.value.cat.value)
    ensures Present(fs.continuous) && DirectPatches(fs.continuous.value, patchReads, maskReads, npatches, halfwidth, zeroC).Failure? ==>
      r == Failure(DirectPatches(fs.continuous.value, patchReads, maskReads, npatches, halfwidth, zeroC).error)
    ensures r.Failure? ==> r.error == IndexError
  {
    Combine(
      if Present(fs.continuous)
      then Some(DirectPatches(fs.continuous.value, patchReads, maskReads, npatches, halfwidth, zeroC)) else None,
      if Present(fs.categorical)
      then Some(DirectPatches(fs.categorical.value, patchReads, maskReads, npatches, halfwidth, zeroK)) else None)
  }

  /**
   * The patch arrays `_process_query` builds: a patch array exactly for each
   * present feature array, read through its row cache; the continuous
   * array's error is the one raised.
   */
  function QueryArrays<C(==), K(==)>(fs: FeatureSource<C, K>, patchReads: seq<ReadOp>, maskReads: seq<MaskOp>,
                                     npatches: int, halfwidth: int, zeroC: C, zeroK: K)
    : (r: Result<PatchArrays<C, K>, Exception>)
    requires ReadsAllowed(fs, npatches, halfwidth)
    ensures r.Success? <==>
      && (Present(fs.continuous) ==> CachedPatches(fs.continuous.value, patchReads, maskReads, npatches, halfwidth, zeroC).Success?)
      && (Present(fs.categorical) ==> CachedPatches(fs.categorical.value, patchReads, maskReads, npatches, halfwidth, zeroK).Success?)
    ensures r.Success? ==> (r.value.con.Some? <==> Present(fs.continuous)) && (r.value.cat.Some? <==> Present(fs.categorical))
    ensures r.Success? && Present(fs.continuous) ==>
      CachedPatches(fs.continuous.value, patchReads, maskReads, npatches, halfwidth, zeroC) == Success(r.value.con.value)
    ensures r.Success? && Present(fs.categorical) ==>
      CachedPatches(fs.categorical.value, patchReads, maskReads, npatches, halfwidth, zeroK) == Success(r.value.cat.value)
    ensures Present(fs.continuous) && CachedPatches(fs.continuous.value, patchReads, maskReads, npatches, halfwidth, zeroC).Failure? ==>
      r == Failure(CachedPatches(fs.continuous.value, patchReads, maskReads, npatches, halfwidth, zeroC).error)
    ensures r.Failure? ==> r.error == IndexError || r.error == KeyError
  {
    Combine(
      if Present(fs.continuous)
      then Some(CachedPatches(fs.continuous.value, patchReads, maskReads, npatches, halfwidth, zeroC)) else None,
      if Present(fs.categorical)
      then Some(CachedPatches(fs.categorical.value, patchReads, maskReads, npatches, halfwidth, zeroK)) else None)
  }

  /** The read part of `_process_training`: each present array is read directly. */
  method ProcessTraining<C(==), K(==)>(fs: FeatureSource<C, K>, patchReads: seq<ReadOp>, maskReads: seq<MaskOp>,
                                       npatches: int, halfwidth: int, zeroC: C, zeroK: K)
    returns (r: Result<PatchArrays<C, K>, Exception>)
    requires ReadsAllowed(fs, npatches, halfwidth)
    ensures r == TrainingArrays(fs, patchReads, maskReads, npatches, halfwidth, zeroC, zeroK)
  {
    var patchwidth := 2 * halfwidth + 1;
    var con: Option<Patches<C>> := None;
    var cat: Option<Patches<K>> := None;
    if Present(fs.continuous) {
      var c := DirectRead(fs.continuous.value, patchReads, maskReads, npatches, patchwidth, zeroC);
      if c.Failure? {
        return Failure(c.error);
      }
      con := Some(c.value);
    }
    if Present(fs.categorical) {
      var c := DirectRead(fs.categorical.value, patchReads, maskReads, npatches, patchwidth, zeroK);
      if c.Failure? {
        return Failure(c.error);
      }
      cat := Some(c.value);
    }
    r := Success(PatchArrays(con, cat));
  }

  /** The read part of `_process_query`: the rows read are cached per array, then read from the cache. */
  method ProcessQuery<C(==), K(==)>(fs: FeatureSource<C, K>, patchReads: seq<ReadOp>, maskReads: seq<MaskOp>,
                                    npatches: int, halfwidth: int, zeroC: C, zeroK: K)
    returns (r: Result<PatchArrays<C, K>, Exception>)
    requires ReadsAllowed(fs, npatches, halfwidth)
    ensures r == QueryArrays(fs, patchReads, maskReads, npatches, halfwidth, zeroC, zeroK)
  {
    var slices := SlicesFromPatches(patchReads);
    var patchwidth := 2 * halfwidth + 1;
    var con: Option<Patches<C>> := None;
    var cat: Option<Patches<K>> := None;
    if Present(fs.continuous) {
      var cache := GetRows(slices, fs.continuous.value.rows);
      var c := CachedRead(cache, fs.continuous.value, patchReads, maskReads, npatches, patchwidth, zeroC);
      if c.Failure? {
        return Failure(c.error);
      }
      con := Some(c.value);
    }
    if Present(fs.categorical) {
      var cache := GetRows(slices, fs.categorical.value.rows);
      var c := CachedRead(cache, fs.categorical.value, patchReads, maskReads, npatches, patchwidth, zeroK);
      if c.Failure? {
        return Failure(c.error);
      }
      cat := Some(c.value);
    }
    r := Success(PatchArrays(con, cat));
  }

  /** Every read op reads a row that exists in array `a`. */
  predicate RowsExist<T>(a: Option<FeatureArray<T>>, patchReads: seq<ReadOp>)
  {
    a.Some? ==> forall k :: 0 <= k < |patchReads| ==> 0 <= patchReads[k].y < |a.value.rows|
  }

  /**
   * When every read op reads an existing row of each array, the query path
   * builds exactly the patch arrays the training path builds.
   */
  lemma QueryMatchesTraining<C, K>(fs: FeatureSource<C, K>, patchReads: seq<ReadOp>, maskReads: seq<MaskOp>,
                                           npatches: int, halfwidth: int, zeroC: C, zeroK: K)
    requires ReadsAllowed(fs, npatches, halfwidth)
    requires RowsExist(fs.continuous, patchReads) && RowsExist(fs.categorical, patchReads)
    ensures QueryArrays(fs, patchReads, maskReads, npatches, halfwidth, zeroC, zeroK)
            == TrainingArrays(fs, patchReads, maskReads, npatches, halfwidth, zeroC, zeroK)
  {
    if Present(fs.continuous) {
      var a := fs.continuous.value;
      CachedMatchesDirect(a.rows, a.nfeatures, a.missing, patchReads, maskReads, npatches, PatchWidth(halfwidth), zeroC);
    }
    if Present(fs.categorical) {
      var a := fs.categorical.value;
      CachedMatchesDirect(a.rows, a.nfeatures, a.missing, patchReads, maskReads, npatches, PatchWidth(halfwidth), zeroK);
    }
  }

  /** A successful direct read of one array has `npatches * (2 * halfwidth + 1)^2` cells of `nfeatures` values. */
  lemma DirectPatchesShape<T>(a: FeatureArray<T>, patchReads: seq<ReadOp>, maskReads: seq<MaskOp>,
                              npatches: nat, halfwidth: nat, zero: T)
    requires SourceShaped(Direct(a.rows), a.nfeatures)
    requires DirectPatches(a, patchReads, maskReads, npatches, halfwidth, zero).Success?
    ensures var p := DirectPatches(a, patchReads, maskReads, npatches, halfwidth, zero).value;
      && |p.data| == npatches * Util.PatchSize(halfwidth)
      && forall c :: 0 <= c < |p.data| ==> |p.data[c]| == a.nfeatures
  {
    var pw := PatchWidth(halfwidth);
    AssembleData(Direct(a.rows), a.nfeatures, a.missing, patchReads, maskReads, npatches, pw, zero);
    assert npatches * pw * pw == npatches * (pw * pw);
  }

  /**
   * A successful training read holds patches for exactly the present arrays,
   * each with `npatches * (2 * halfwidth + 1)^2` cells of the array's
   * `nfeatures` values.
   */
  lemma TrainingShapes<C, K>(fs: FeatureSource<C, K>, patchReads: seq<ReadOp>, maskReads: seq<MaskOp>,
                             npatches: int, halfwidth: int, zeroC: C, zeroK: K)
    requires ReadsAllowed(fs, npatches, halfwidth)
    requires fs.continuous.Some? ==> SourceShaped(Direct(fs.continuous.value.rows), fs.continuous.value.nfeatures)
    requires fs.categorical.Some? ==> SourceShaped(Direct(fs.categorical.value.rows), fs.categorical.value.nfeatures)
    requires TrainingArrays(fs, patchReads, maskReads, npatches, halfwidth, zeroC, zeroK).Success?
    ensures var p := TrainingArrays(fs, patchReads, maskReads, npatches, halfwidth, zeroC, zeroK).value;
      && (p.con.Some? <==> Present(fs.continuous))
      && (p.cat.Some? <==> Present(fs.categorical))
      && (p.con.Some? ==> |p.con.value.data| == npatches * Util.PatchSize(halfwidth)
                          && forall c :: 0 <= c < |p.con.value.data| ==> |p.con.value.data[c]| == fs.continuous.value.nfeatures)
      && (p.cat.Some? ==> |p.cat.value.data| == npatches * Util.PatchSize(halfwidth)
                          && forall c :: 0 <= c < |p.cat.value.data| ==> |p.cat.value.data[c]| == fs.categorical.value.nfeatures)
  {
    if Present(fs.continuous) {
      DirectPatchesShape(fs.continuous.value, patchReads, maskReads, npatches, halfwidth, zeroC);
    }
    if Present(fs.categorical) {
      DirectPatchesShape(fs.categorical.value, patchReads, maskReads, npatches, halfwidth, zeroK);
    }
  }
}
