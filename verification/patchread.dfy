/**
 * Patch assembly (landshark/dataprocess.py, `_direct_read` and
 * `_cached_read`): a zeroed (npatches, pw, pw, nfeatures) array and a false
 * mask of the same shape; each read op copies one source feature vector into
 * its destination cell, each mask op masks a whole cell, and finally every
 * element equal to the declared missing value is masked.
 *
 * The (npatches, pw, pw) cells are held flat in C order, each cell being the
 * vector of its `nfeatures` values.
 */
module PatchRead {
  import opened Py

  /** A `PatchRowRW`: copy source pixel `(y, x)` into cell `(idx, yp, xp)`. */
  datatype ReadOp = ReadOp(idx: int, yp: int, xp: int, y: int, x: int)

  /** A `PatchMaskRowRW`: mask cell `(idx, yp, xp)`. */
  datatype MaskOp = MaskOp(idx: int, yp: int, xp: int)

  /**
   * A feature array: `rows[y][x]` is the feature vector of pixel `(y, x)`;
   * `nfeatures` is the atom shape and `missing` the declared missing value.
   */
  datatype FeatureArray<T> = FeatureArray(rows: seq<seq<seq<T>>>, nfeatures: nat, missing: Option<T>)

  /** Where read ops take their values from: the array itself, or a row cache. */
  datatype Source<T> = Direct(rows: seq<seq<seq<T>>>) | Cached(rowDict: map<int, seq<seq<T>>>)

  /** A masked patch array: flat cells of data and of mask flags. */
  datatype Patches<T> = Patches(data: seq<seq<T>>, mask: seq<seq<bool>>)

  /** `array[y, x]` (direct) or `row_dict[y][x]` (cached). */
  function Fetch<T>(src: Source<T>, y: int, x: int): (r: Result<seq<T>, Exception>)
    ensures src.Direct? && 0 <= y < |src.rows| && 0 <= x < |src.rows[y]| ==> r == Success(src.rows[y][x])
    ensures src.Cached? && y in src.rowDict && 0 <= x < |src.rowDict[y]| ==> r == Success(src.rowDict[y][x])
    ensures src.Cached? ==> (r == Failure(KeyError) <==> y !in src.rowDict)
    ensures r.Failure? ==> r.error == IndexError || (src.Cached? && r.error == KeyError)
  {
    match src
    case Direct(rows) =>
      (match Index(y, |rows|)
       case Failure(e) => Failure(e)
       case Success(yi) =>
         match Index(x, |rows[yi]|)
         case Failure(e) => Failure(e)
         case Success(xi) => Success(rows[yi][xi]))
    case Cached(rowDict) =>
      if y !in rowDict then Failure(KeyError)
      else
        match Index(x, |rowDict[y]|)
        case Failure(e) => Failure(e)
        case Success(xi) => Success(rowDict[y][xi])
  }

  /** Every feature vector the source can hand out has `nfeatures` values. */
  ghost predicate SourceShaped<T>(src: Source<T>, nfeatures: nat)
  {
    match src
    case Direct(rows) =>
      forall y, x :: 0 <= y < |rows| && 0 <= x < |rows[y]| ==> |rows[y][x]| == nfeatures
    case Cached(rowDict) =>
      forall y, x :: y in rowDict && 0 <= x < |rowDict[y]| ==> |rowDict[y][x]| == nfeatures
  }

  lemma MulMonotone(a: int, b: int, c: nat)
    requires a <= b
    ensures a * c <= b * c
  {
  }

  lemma CellBound(i: nat, y: nat, x: nat, npatches: nat, pw: nat)
    requires i < npatches && y < pw && x < pw
    ensures 0 <= (i * pw + y) * pw + x < npatches * pw * pw
  {
    var row := i * pw + y;
    MulMonotone(0, i, pw);
    MulMonotone(0, row, pw);
    assert row + 1 <= (i + 1) * pw;
    MulMonotone(i + 1, npatches, pw);
    MulMonotone(row + 1, npatches * pw, pw);
    assert row * pw + x < (row + 1) * pw;
  }

  /** The flat position of cell `[idx, yp, xp]` in an (npatches, pw, pw) array. */
  function Cell(idx: int, yp: int, xp: int, npatches: nat, pw: nat): (r: Result<nat, Exception>)
    ensures r.Success? <==>
      -(npatches as int) <= idx < npatches && -(pw as int) <= yp < pw && -(pw as int) <= xp < pw
    ensures r.Success? ==> r.value < npatches * pw * pw
  {
    match Index(idx, npatches)
    case Failure(e) => Failure(e)
    case Success(i) =>
      match Index(yp, pw)
      case Failure(e) => Failure(e)
      case Success(y) =>
        match Index(xp, pw)
        case Failure(e) => Failure(e)
        case Success(x) =>
          CellBound(i, y, x, npatches, pw);
          Success((i * pw + y) * pw + x)
  }

  function ReadCell(op: ReadOp, npatches: nat, pw: nat): Result<nat, Exception>
  {
    Cell(op.idx, op.yp, op.xp, npatches, pw)
  }

  function MaskCell(op: MaskOp, npatches: nat, pw: nat): Result<nat, Exception>
  {
    Cell(op.idx, op.yp, op.xp, npatches, pw)
  }

  /** `np.zeros`/`np.zeros_like`: `n` cells of `nfeatures` copies of `v`. */
  function Fill<U>(n: nat, nfeatures: nat, v: U): (cells: seq<seq<U>>)
    ensures |cells| == n && forall c :: 0 <= c < n ==> cells[c] == seq(nfeatures, _ => v)
  {
    seq(n, _ => seq(nfeatures, _ => v))
  }

  /** `patch_data[r.idx, r.yp, r.xp] = <source>[r.y][r.x]`: the source is read first. */
  function WriteRead<T>(src: Source<T>, op: ReadOp, cells: seq<seq<T>>, npatches: nat, pw: nat)
    : Result<seq<seq<T>>, Exception>
  {
    match Fetch(src, op.y, op.x)
    case Failure(e) => Failure(e)
    case Success(v) =>
      match ReadCell(op, npatches, pw)
      case Failure(e) => Failure(e)
      case Success(c) => if c < |cells| then Success(cells[c := v]) else Failure(IndexError)
  }

  /** The read ops applied in list order. */
  function ApplyReads<T>(src: Source<T>, patchReads: seq<ReadOp>, cells: seq<seq<T>>, npatches: nat, pw: nat)
    : (r: Result<seq<seq<T>>, Exception>)
    ensures r.Success? ==> |r.value| == |cells|
    ensures r.Failure? ==> r.error == IndexError || (src.Cached? && r.error == KeyError)
  {
    if patchReads == [] then Success(cells)
    else
      match ApplyReads(src, patchReads[..|patchReads| - 1], cells, npatches, pw)
      case Failure(e) => Failure(e)
      case Success(done) => WriteRead(src, patchReads[|patchReads| - 1], done, npatches, pw)
  }

  /** A cell whose `nfeatures` flags are all set. */
  function AllMasked(nfeatures: nat): (flags: seq<bool>)
    ensures |flags| == nfeatures && forall f :: 0 <= f < nfeatures ==> flags[f]
  {
    seq(nfeatures, _ => true)
  }

  /** `patch_mask[m.idx, m.yp, m.xp] = True`: the whole cell is masked. */
  function WriteMask(op: MaskOp, cells: seq<seq<bool>>, npatches: nat, pw: nat, nfeatures: nat)
    : Result<seq<seq<bool>>, Exception>
  {
    match MaskCell(op, npatches, pw)
    case Failure(e) => Failure(e)
    case Success(c) => if c < |cells| then Success(cells[c := AllMasked(nfeatures)]) else Failure(IndexError)
  }

  /** The mask ops applied in list order. */
  function ApplyMasks(maskReads: seq<MaskOp>, cells: seq<seq<bool>>, npatches: nat, pw: nat, nfeatures: nat)
    : (r: Result<seq<seq<bool>>, Exception>)
    ensures r.Success? ==> |r.value| == |cells|
    ensures r.Success? ==> forall c :: 0 <= c < |cells| ==> r.value[c] == cells[c] || r.value[c] == AllMasked(nfeatures)
    ensures r.Failure? ==> r.error == IndexError
  {
    if maskReads == [] then Success(cells)
    else
      match ApplyMasks(maskReads[..|maskReads| - 1], cells, npatches, pw, nfeatures)
      case Failure(e) => Failure(e)
      case Success(done) => WriteMask(maskReads[|maskReads| - 1], done, npatches, pw, nfeatures)
  }

  /** One cell of `patch_mask |= patch_data == missing`. */
  function MissingCell<T(==)>(mask: seq<bool>, data: seq<T>, missing: T): (r: seq<bool>)
    ensures |r| == |mask|
  {
    seq(|mask|, f requires 0 <= f < |mask| => mask[f] || (f < |data| && data[f] == missing))
  }

  /** `patch_mask |= patch_data == missing`. */
  function MarkMissing<T(==)>(data: seq<seq<T>>, mask: seq<seq<bool>>, missing: T): seq<seq<bool>>
  {
    seq(|mask|, c requires 0 <= c < |mask| => if c < |data| then MissingCell(mask[c], data[c], missing) else mask[c])
  }

  /** What `_direct_read`/`_cached_read` return for the given source. */
  function Assemble<T(==)>(src: Source<T>, nfeatures: nat, missing: Option<T>, patchReads: seq<ReadOp>,
                           maskReads: seq<MaskOp>, npatches: nat, pw: nat, zero: T): (r: Result<Patches<T>, Exception>)
    ensures r.Success? ==> |r.value.data| == npatches * pw * pw && |r.value.mask| == npatches * pw * pw
    ensures r.Success? ==> forall c :: 0 <= c < |r.value.mask| ==> |r.value.mask[c]| == nfeatures
    ensures r.Failure? ==> r.error == IndexError || (src.Cached? && r.error == KeyError)
  {
    var n := npatches * pw * pw;
    match ApplyReads(src, patchReads, Fill(n, nfeatures, zero), npatches, pw)
    case Failure(e) => Failure(e)
    case Success(data) =>
      match ApplyMasks(maskReads, Fill(n, nfeatures, false), npatches, pw, nfeatures)
      case Failure(e) => Failure(e)
      case Success(mask) =>
        Success(Patches(data, if missing.Some? then MarkMissing(data, mask, missing.value) else mask))
  }

  // ---------------------------------------------------------------------
  // The readers
  // ---------------------------------------------------------------------

  lemma {:induction false} ReadsFailureSticks<T>(src: Source<T>, patchReads: seq<ReadOp>, j: nat, cells: seq<seq<T>>,
                                                 npatches: nat, pw: nat)
    requires j <= |patchReads| && ApplyReads(src, patchReads[..j], cells, npatches, pw).Failure?
    ensures ApplyReads(src, patchReads, cells, npatches, pw) == ApplyReads(src, patchReads[..j], cells, npatches, pw)
    decreases |patchReads| - j
  {
    if j < |patchReads| {
      assert patchReads[..j + 1][..j] == patchReads[..j];
      ReadsFailureSticks(src, patchReads, j + 1, cells, npatches, pw);
    } else {
      assert patchReads[..j] == patchReads;
    }
  }

  lemma {:induction false} MasksFailureSticks(maskReads: seq<MaskOp>, j: nat, cells: seq<seq<bool>>,
                                              npatches: nat, pw: nat, nfeatures: nat)
    requires j <= |maskReads| && ApplyMasks(maskReads[..j], cells, npatches, pw, nfeatures).Failure?
    ensures ApplyMasks(maskReads, cells, npatches, pw, nfeatures) == ApplyMasks(maskReads[..j], cells, npatches, pw, nfeatures)
    decreases |maskReads| - j
  {
    if j < |maskReads| {
      assert maskReads[..j + 1][..j] == maskReads[..j];
      MasksFailureSticks(maskReads, j + 1, cells, npatches, pw, nfeatures);
    } else {
      assert maskReads[..j] == maskReads;
    }
  }

  /** The loop over the read ops: each op's value is written into its cell, until the first error. */
  method ApplyReadOps<T>(src: Source<T>, patchReads: seq<ReadOp>, data: array<seq<T>>, npatches: nat, pw: nat)
    returns (r: Outcome<Exception>)
    modifies data
    ensures ApplyReads(src, patchReads, old(data[..]), npatches, pw)
            == if r.Pass? then Success(data[..]) else Failure(r.error)
  {
    ghost var initial := data[..];
    for j := 0 to |patchReads|
      invariant ApplyReads(src, patchReads[..j], initial, npatches, pw) == Success(data[..])
    {
      assert patchReads[..j + 1][..j] == patchReads[..j];
      var op := patchReads[j];
      var v := Fetch(src, op.y, op.x);
      if v.Failure? {
        ReadsFailureSticks(src, patchReads, j + 1, initial, npatches, pw);
        return Fail(v.error);
      }
      var c := ReadCell(op, npatches, pw);
      if c.Failure? || c.value >= data.Length {
        ReadsFailureSticks(src, patchReads, j + 1, initial, npatches, pw);
        return Fail(if c.Failure? then c.error else IndexError);
      }
      data[c.value] := v.value;
    }
    assert patchReads[..|patchReads|] == patchReads;
    r := Pass;
  }

  /** The loop over the mask ops: each op's cell is masked, until the first error. */
  method ApplyMaskOps(maskReads: seq<MaskOp>, mask: array<seq<bool>>, npatches: nat, pw: nat, nfeatures: nat)
    returns (r: Outcome<Exception>)
    modifies mask
    ensures ApplyMasks(maskReads, old(mask[..]), npatches, pw, nfeatures)
            == if r.Pass? then Success(mask[..]) else Failure(r.error)
  {
    ghost var initial := mask[..];
    for j := 0 to |maskReads|
      invariant ApplyMasks(maskReads[..j], initial, npatches, pw, nfeatures) == Success(mask[..])
    {
      assert maskReads[..j + 1][..j] == maskReads[..j];
      var c := MaskCell(maskReads[j], npatches, pw);
      if c.Failure? || c.value >= mask.Length {
        MasksFailureSticks(maskReads, j + 1, initial, npatches, pw, nfeatures);
        return Fail(if c.Failure? then c.error else IndexError);
      }
      mask[c.value] := AllMasked(nfeatures);
    }
    assert maskReads[..|maskReads|] == maskReads;
    r := Pass;
  }

  /** `patch_mask |= patch_data == missing`, in place. */
  method MaskMissing<T(==)>(data: seq<seq<T>>, mask: array<seq<bool>>, missing: T)
    modifies mask
    ensures mask[..] == MarkMissing(data, old(mask[..]), missing)
  {
    forall c | 0 <= c < mask.Length {
      mask[c] := if c < |data| then MissingCell(mask[c], data[c], missing) else mask[c];
    }
  }

  /**
   * The body shared by `_direct_read` and `_cached_read`: zeroed data, false
   * mask, the read ops, the mask ops, then the missing-value mask.
   */
  method Read<T(==)>(src: Source<T>, nfeatures: nat, missing: Option<T>, patchReads: seq<ReadOp>,
                     maskReads: seq<MaskOp>, npatches: int, patchwidth: int, zero: T)
    returns (r: Result<Patches<T>, Exception>)
    requires npatches > 0 && patchwidth > 0
    ensures r == Assemble(src, nfeatures, missing, patchReads, maskReads, npatches, patchwidth, zero)
  {
    var n := npatches * patchwidth * patchwidth;
    var data := new seq<T>[n](_ => seq(nfeatures, _ => zero));
    var mask := new seq<bool>[n](_ => seq(nfeatures, _ => false));
    assert data[..] == Fill(n, nfeatures, zero);
    assert mask[..] == Fill(n, nfeatures, false);
    var readOutcome := ApplyReadOps(src, patchReads, data, npatches, patchwidth);
    if readOutcome.Fail? {
      return Failure(readOutcome.error);
    }
    var maskOutcome := ApplyMaskOps(maskReads, mask, npatches, patchwidth, nfeatures);
    if maskOutcome.Fail? {
      return Failure(maskOutcome.error);
    }
    if missing.Some? {
      MaskMissing(data[..], mask, missing.value);
    }
    r := Success(Patches(data[..], mask[..]));
  }

  /** `_direct_read`: the read ops take their values from the array itself. */
  method DirectRead<T(==)>(features: FeatureArray<T>, patchReads: seq<ReadOp>, maskReads: seq<MaskOp>,
                           npatches: int, patchwidth: int, zero: T)
    returns (r: Result<Patches<T>, Exception>)
    requires npatches > 0 && patchwidth > 0
    ensures r == Assemble(Direct(features.rows), features.nfeatures, features.missing, patchReads, maskReads, npatches, patchwidth, zero)
  {
    r := Read(Direct(features.rows), features.nfeatures, features.missing, patchReads, maskReads, npatches, patchwidth, zero);
  }

  /** `_cached_read`: the read ops take their values from `rowDict`. */
  method CachedRead<T(==)>(rowDict: map<int, seq<seq<T>>>, features: FeatureArray<T>, patchReads: seq<ReadOp>,
                           maskReads: seq<MaskOp>, npatches: int, patchwidth: int, zero: T)
    returns (r: Result<Patches<T>, Exception>)
    requires npatches > 0 && patchwidth > 0
    ensures r == Assemble(Cached(rowDict), features.nfeatures, features.missing, patchReads, maskReads, npatches, patchwidth, zero)
  {
    r := Read(Cached(rowDict), features.nfeatures, features.missing, patchReads, maskReads, npatches, patchwidth, zero);
  }

  // ---------------------------------------------------------------------
  // What the assembled patches hold
  // ---------------------------------------------------------------------

  /** The position of the last read op whose destination is cell `c`, if any. */
  function LastWriter(patchReads: seq<ReadOp>, c: nat, npatches: nat, pw: nat): (r: Option<nat>)
    ensures r.Some? ==> r.value < |patchReads| && ReadCell(patchReads[r.value], npatches, pw) == Success(c)
    ensures r.Some? ==> forall k :: r.value < k < |patchReads| ==> ReadCell(patchReads[k], npatches, pw) != Success(c)
    ensures r.None? ==> forall k :: 0 <= k < |patchReads| ==> ReadCell(patchReads[k], npatches, pw) != Success(c)
  {
    if patchReads == [] then None
    else if ReadCell(patchReads[|patchReads| - 1], npatches, pw) == Success(c) then Some(|patchReads| - 1)
    else LastWriter(patchReads[..|patchReads| - 1], c, npatches, pw)
  }

  /** Whether some mask op has cell `c` as its destination. */
  predicate MaskedByOp(maskReads: seq<MaskOp>, c: nat, npatches: nat, pw: nat)
  {
    && maskReads != []
    && (|| MaskCell(maskReads[|maskReads| - 1], npatches, pw) == Success(c)
        || MaskedByOp(maskReads[..|maskReads| - 1], c, npatches, pw))
  }

  /** `MaskedByOp` holds exactly when some op in the list names cell `c`. */
  lemma {:induction false} MaskedByOpExists(maskReads: seq<MaskOp>, c: nat, npatches: nat, pw: nat)
    ensures MaskedByOp(maskReads, c, npatches, pw) <==>
            exists k :: 0 <= k < |maskReads| && MaskCell(maskReads[k], npatches, pw) == Success(c)
  {
    if maskReads != [] {
      var init := maskReads[..|maskReads| - 1];
      MaskedByOpExists(init, c, npatches, pw);
      if MaskedByOp(init, c, npatches, pw) {
        var k :| 0 <= k < |init| && MaskCell(init[k], npatches, pw) == Success(c);
        assert maskReads[k] == init[k];
      }
      if MaskCell(maskReads[|maskReads| - 1], npatches, pw) != Success(c) {
        if exists k :: 0 <= k < |maskReads| && MaskCell(maskReads[k], npatches, pw) == Success(c) {
          var k :| 0 <= k < |maskReads| && MaskCell(maskReads[k], npatches, pw) == Success(c);
          assert k < |init| && init[k] == maskReads[k];
        }
      }
    }
  }

  /** Whether every read op can fetch its value and names a cell of the array. */
  predicate ReadsInBounds<T>(src: Source<T>, patchReads: seq<ReadOp>, npatches: nat, pw: nat)
  {
    forall k :: 0 <= k < |patchReads| ==>
      Fetch(src, patchReads[k].y, patchReads[k].x).Success? && ReadCell(patchReads[k], npatches, pw).Success?
  }

  predicate MasksInBounds(maskReads: seq<MaskOp>, npatches: nat, pw: nat)
  {
    forall k :: 0 <= k < |maskReads| ==> MaskCell(maskReads[k], npatches, pw).Success?
  }

  lemma {:induction false} ApplyReadsSpec<T>(src: Source<T>, patchReads: seq<ReadOp>, cells: seq<seq<T>>, npatches: nat, pw: nat)
    requires |cells| == npatches * pw * pw
    ensures ApplyReads(src, patchReads, cells, npatches, pw).Success? <==> ReadsInBounds(src, patchReads, npatches, pw)
    ensures ApplyReads(src, patchReads, cells, npatches, pw).Success? ==>
      var data := ApplyReads(src, patchReads, cells, npatches, pw).value;
      && |data| == |cells|
      && forall c :: 0 <= c < |cells| ==>
           match LastWriter(patchReads, c, npatches, pw)
           case None => data[c] == cells[c]
           case Some(k) => Fetch(src, patchReads[k].y, patchReads[k].x) == Success(data[c])
  {
    if patchReads != [] {
      var init := patchReads[..|patchReads| - 1];
      ApplyReadsSpec(src, init, cells, npatches, pw);
      assert forall k :: 0 <= k < |init| ==> init[k] == patchReads[k];
      if !ReadsInBounds(src, init, npatches, pw) {
        var k :| 0 <= k < |init| &&
          !(Fetch(src, init[k].y, init[k].x).Success? && ReadCell(init[k], npatches, pw).Success?);
        assert !(Fetch(src, patchReads[k].y, patchReads[k].x).Success? && ReadCell(patchReads[k], npatches, pw).Success?);
      }
    }
  }

  lemma {:induction false} ApplyMasksSpec(maskReads: seq<MaskOp>, cells: seq<seq<bool>>, npatches: nat, pw: nat, nfeatures: nat)
    requires |cells| == npatches * pw * pw
    ensures ApplyMasks(maskReads, cells, npatches, pw, nfeatures).Success? <==> MasksInBounds(maskReads, npatches, pw)
    ensures ApplyMasks(maskReads, cells, npatches, pw, nfeatures).Success? ==>
      var mask := ApplyMasks(maskReads, cells, npatches, pw, nfeatures).value;
      && |mask| == |cells|
      && forall c :: 0 <= c < |cells| ==>
           mask[c] == if MaskedByOp(maskReads, c, npatches, pw) then AllMasked(nfeatures) else cells[c]
  {
    if maskReads != [] {
      var init := maskReads[..|maskReads| - 1];
      ApplyMasksSpec(init, cells, npatches, pw, nfeatures);
      assert forall k :: 0 <= k < |init| ==> init[k] == maskReads[k];
      if !MasksInBounds(init, npatches, pw) {
        var k :| 0 <= k < |init| && !MaskCell(init[k], npatches, pw).Success?;
        assert !MaskCell(maskReads[k], npatches, pw).Success?;
      }
    }
  }

  /**
   * The readers succeed exactly when every read op's source pixel exists and
   * every read and mask op names a cell of the (npatches, pw, pw) array.
   */
  lemma AssembleSucceedsIff<T>(src: Source<T>, nfeatures: nat, missing: Option<T>, patchReads: seq<ReadOp>,
                                   maskReads: seq<MaskOp>, npatches: nat, pw: nat, zero: T)
    ensures Assemble(src, nfeatures, missing, patchReads, maskReads, npatches, pw, zero).Success?
            <==> ReadsInBounds(src, patchReads, npatches, pw) && MasksInBounds(maskReads, npatches, pw)
  {
    var n := npatches * pw * pw;
    ApplyReadsSpec(src, patchReads, Fill(n, nfeatures, zero), npatches, pw);
    ApplyMasksSpec(maskReads, Fill(n, nfeatures, false), npatches, pw, nfeatures);
  }

  /**
   * The data holds one cell per (patch, row, column), each of `nfeatures`
   * values: the value of the last read op targeting it, or zeros where no
   * read op targets it.
   */
  lemma AssembleData<T>(src: Source<T>, nfeatures: nat, missing: Option<T>, patchReads: seq<ReadOp>,
                            maskReads: seq<MaskOp>, npatches: nat, pw: nat, zero: T)
    requires SourceShaped(src, nfeatures)
    requires Assemble(src, nfeatures, missing, patchReads, maskReads, npatches, pw, zero).Success?
    ensures var p := Assemble(src, nfeatures, missing, patchReads, maskReads, npatches, pw, zero).value;
      && |p.data| == npatches * pw * pw
      && forall c :: 0 <= c < |p.data| ==>
           && |p.data[c]| == nfeatures
           && match LastWriter(patchReads, c, npatches, pw)
              case None => p.data[c] == seq(nfeatures, _ => zero)
              case Some(k) => Fetch(src, patchReads[k].y, patchReads[k].x) == Success(p.data[c])
  {
    var n := npatches * pw * pw;
    ApplyReadsSpec(src, patchReads, Fill(n, nfeatures, zero), npatches, pw);
    var data := ApplyReads(src, patchReads, Fill(n, nfeatures, zero), npatches, pw).value;
    forall c | 0 <= c < n
      ensures |data[c]| == nfeatures
    {
      match LastWriter(patchReads, c, npatches, pw)
      case None =>
      case Some(k) =>
        FetchShaped(src, nfeatures, patchReads[k].y, patchReads[k].x);
    }
  }

  lemma FetchShaped<T>(src: Source<T>, nfeatures: nat, y: int, x: int)
    requires SourceShaped(src, nfeatures) && Fetch(src, y, x).Success?
    ensures |Fetch(src, y, x).value| == nfeatures
  {
    match src
    case Direct(rows) =>
      var yi := Index(y, |rows|).value;
      var xi := Index(x, |rows[yi]|).value;
      assert Fetch(src, y, x).value == rows[yi][xi];
    case Cached(rowDict) =>
      var xi := Index(x, |rowDict[y]|).value;
      assert Fetch(src, y, x).value == rowDict[y][xi];
  }

  /**
   * The mask has the data's shape, and an element is masked exactly when a
   * mask op targets its cell or a missing value is declared and the element
   * equals it; with no missing value only mask-op cells are masked.
   */
  lemma AssembleMask<T>(src: Source<T>, nfeatures: nat, missing: Option<T>, patchReads: seq<ReadOp>,
                            maskReads: seq<MaskOp>, npatches: nat, pw: nat, zero: T)
    requires SourceShaped(src, nfeatures)
    requires Assemble(src, nfeatures, missing, patchReads, maskReads, npatches, pw, zero).Success?
    ensures var p := Assemble(src, nfeatures, missing, patchReads, maskReads, npatches, pw, zero).value;
      && |p.mask| == |p.data|
      && forall c :: 0 <= c < |p.mask| ==>
           && |p.mask[c]| == |p.data[c]|
           && forall f :: 0 <= f < |p.mask[c]| ==>
                (p.mask[c][f] <==> MaskedByOp(maskReads, c, npatches, pw)
                                   || (missing.Some? && p.data[c][f] == missing.value))
  {
    var n := npatches * pw * pw;
    AssembleData(src, nfeatures, missing, patchReads, maskReads, npatches, pw, zero);
    ApplyMasksSpec(maskReads, Fill(n, nfeatures, false), npatches, pw, nfeatures);
  }
}
