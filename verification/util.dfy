/**
 * Utilities (landshark/util.py): masking by a missing value, and the sizing of
 * batches from a memory budget.
 */
module Util {
  import opened Py

  /** A flat array with its mask: `mask[i]` means `data[i]` is missing. */
  datatype MaskedArray<V> = MaskedArray(data: seq<V>, mask: seq<bool>)

  /** `to_masked`: masks exactly the elements equal to the missing value, if there is one. */
  function ToMasked<V(==)>(values: seq<V>, missingValue: Option<V>): (r: MaskedArray<V>)
    ensures r.data == values && |r.mask| == |values|
    ensures forall i :: 0 <= i < |values| ==> (r.mask[i] <==> missingValue == Some(values[i]))
    ensures missingValue.None? ==> forall i :: 0 <= i < |values| ==> !r.mask[i]
  {
    match missingValue
    case None => MaskedArray(values, seq(|values|, _ => false))
    case Some(m) => MaskedArray(values, seq(|values|, i requires 0 <= i < |values| => values[i] == m))
  }

  /** `(halfwidth * 2 + 1) ** 2`: the number of pixels in a patch. */
  function PatchSize(halfwidth: int): (n: int)
    ensures n >= 1 && n % 2 == 1
  {
    var w := halfwidth * 2 + 1;
    assert w * w == 4 * (halfwidth * halfwidth + halfwidth) + 1;
    w * w
  }

  /** Bytes per element of the feature types: float32 (continuous), int32 (categorical), float64 (coordinates). */
  const CONTINUOUS_BYTES := 4
  const CATEGORICAL_BYTES := 4
  const COORDINATE_BYTES := 8

  /** Megabytes of one point of data: all its channels over a whole patch. */
  function PointMegabytes(ndimCon: int, ndimCat: int, ndimCoord: int, halfwidth: int): real
  {
    var bytes := CONTINUOUS_BYTES * ndimCon + CATEGORICAL_BYTES * ndimCat + COORDINATE_BYTES * ndimCoord;
    (bytes * PatchSize(halfwidth)) as real / 1000000.0
  }

  /**
   * `mb_to_points`: how many points fit in `batchMB`, never fewer than one.
   * A zero per-point size divides by zero.
   */
  function MbToPoints(batchMB: real, ndimCon: int, ndimCat: int, ndimCoord: int, halfwidth: int): (r: Result<int, Exception>)
    ensures r.Failure? <==> PointMegabytes(ndimCon, ndimCat, ndimCoord, halfwidth) == 0.0
    ensures r.Success? ==> r.value >= 1
    ensures r.Success? ==> var target := MaxReal(1.0, batchMB / PointMegabytes(ndimCon, ndimCat, ndimCoord, halfwidth));
      target - 0.5 <= r.value as real <= target + 0.5
  {
    var perPoint := PointMegabytes(ndimCon, ndimCat, ndimCoord, halfwidth);
    if perPoint == 0.0 then Failure(ZeroDivisionError)
    else Success(Round(MaxReal(1.0, batchMB / perPoint)))
  }

  /**
   * `mb_to_rows`: how many image rows of `rowWidth` points fit in `batchMB`,
   * never fewer than one. A zero per-point size or row width divides by zero.
   */
  function MbToRows(batchMB: real, rowWidth: int, ndimCon: int, ndimCat: int, halfwidth: int): (r: Result<int, Exception>)
    ensures r.Failure? <==> PointMegabytes(ndimCon, ndimCat, 0, halfwidth) == 0.0 || rowWidth == 0
    ensures r.Success? ==> r.value >= 1
    ensures r.Success? ==>
      var target := MaxReal(1.0, batchMB / PointMegabytes(ndimCon, ndimCat, 0, halfwidth) / rowWidth as real);
      target - 0.5 <= r.value as real <= target + 0.5
  {
    var pointMB := PointMegabytes(ndimCon, ndimCat, 0, halfwidth);
    if pointMB == 0.0 then Failure(ZeroDivisionError)
    else
      var npoints := batchMB / pointMB;
      if rowWidth == 0 then Failure(ZeroDivisionError)
      else Success(Round(MaxReal(1.0, npoints / rowWidth as real)))
  }
}
