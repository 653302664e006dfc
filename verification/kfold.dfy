/**
 * Cross-validation fold assignment (landshark/kfold.py): a plain folder that
 * draws one label in 1..K per point, and a blocked folder that labels a grid
 * of image blocks once and looks points up in it.
 */
module KFold {
  import opened Py
  import opened Seqs
  import opened Random

  /** `{k: 0 for k in range(1, K + 1)}`. */
  function ZeroCounts(K: int): (counts: map<int, int>)
    ensures forall k :: k in counts <==> 1 <= k <= K
    ensures forall k :: k in counts ==> counts[k] == 0
    decreases K
  {
    if K <= 0 then map[] else ZeroCounts(K - 1)[K := 0]
  }

  /** `counts[1] + ... + counts[n]`. */
  function SumCounts(counts: map<int, int>, n: nat): int
    requires forall k :: 1 <= k <= n ==> k in counts
  {
    if n == 0 then 0 else SumCounts(counts, n - 1) + counts[n]
  }

  /** `ms[1] + ... + ms[n]`: how many elements of `ms` lie in 1..n. */
  function SumMultiplicities(ms: multiset<int>, n: nat): nat
  {
    if n == 0 then 0 else SumMultiplicities(ms, n - 1) + ms[n]
  }

  lemma {:induction false} SumCountsZero(counts: map<int, int>, n: nat)
    requires forall k :: 1 <= k <= n ==> k in counts && counts[k] == 0
    ensures SumCounts(counts, n) == 0
  {
    if n > 0 { SumCountsZero(counts, n - 1); }
  }

  lemma {:induction false} SumMultiplicitiesEmpty(n: nat)
    ensures SumMultiplicities(multiset{}, n) == 0
  {
    if n > 0 { SumMultiplicitiesEmpty(n - 1); }
  }

  lemma {:induction false} SumMultiplicitiesAdd(ms: multiset<int>, x: int, n: nat)
    ensures SumMultiplicities(ms + multiset{x}, n)
            == SumMultiplicities(ms, n) + (if 1 <= x <= n then 1 else 0)
  {
    if n > 0 { SumMultiplicitiesAdd(ms, x, n - 1); }
  }

  /** Every label drawn from 1..K is counted exactly once by the per-label counts. */
  lemma {:induction false} LabelsAreCounted(folds: seq<int>, K: nat)
    requires forall i :: 0 <= i < |folds| ==> 1 <= folds[i] <= K
    ensures SumMultiplicities(multiset(folds), K) == |folds|
  {
    if folds != [] {
      var init := folds[..|folds| - 1];
      assert folds == init + [folds[|folds| - 1]];
      var x := folds[|folds| - 1];
      assert multiset(folds) == multiset(init) + multiset{x};
      LabelsAreCounted(init, K);
      SumMultiplicitiesAdd(multiset(init), x, K);
    } else {
      SumMultiplicitiesEmpty(K);
    }
  }

  /** Adding per-label counts to a table adds their sum to its total. */
  lemma {:induction false} SumCountsAdd(before: map<int, int>, after: map<int, int>, ms: multiset<int>, n: nat)
    requires forall k :: 1 <= k <= n ==> k in before && k in after && after[k] == before[k] + ms[k]
    ensures SumCounts(after, n) == SumCounts(before, n) + SumMultiplicities(ms, n)
  {
    if n > 0 { SumCountsAdd(before, after, ms, n - 1); }
  }

  /** `KFolder`: one random label in 1..K per point, with running per-label counts. */
  class KFolder {
    const K: int
    const rnd: RandomState
    var counts: map<int, int>

    ghost predicate Valid()
      reads this
    {
      K > 1 && (forall k :: k in counts <==> 1 <= k <= K) && forall k :: k in counts ==> counts[k] >= 0
    }

    /** The number of labels handed out so far. */
    function Total(): int
      reads this
      requires Valid()
    {
      SumCounts(counts, K)
    }

    constructor (K: int, stream: nat -> nat)
      requires K > 1
      ensures Valid() && this.K == K
      ensures counts == ZeroCounts(K)
      ensures Total() == 0
      ensures fresh(rnd) && rnd.stream == stream && rnd.drawn == 0
    {
      this.K := K;
      rnd := new RandomState(stream);
      counts := ZeroCounts(K);
      new;
      SumCountsZero(counts, K);
    }

    /** `generate_folds`: one fresh draw from 1..K per row of `indexes`. */
    method GenerateFolds(indexes: seq<(int, int)>) returns (folds: seq<int>)
      requires Valid()
      modifies rnd
      ensures |folds| == |indexes|
      ensures forall i :: 0 <= i < |folds| ==> 1 <= folds[i] <= K
      ensures forall i :: 0 <= i < |folds| ==> folds[i] == DrawAt(rnd.stream, 1, K + 1, old(rnd.drawn) + i)
      ensures rnd.drawn == old(rnd.drawn) + |indexes|
    {
      folds := rnd.RandInts(1, K + 1, |indexes|);
    }

    /** The counting half of `__call__`: `counts[k] += v` for each label `k` present `v` times. */
    method RecordCounts(folds: seq<int>)
      requires Valid()
      requires forall i :: 0 <= i < |folds| ==> 1 <= folds[i] <= K
      modifies this
      ensures Valid()
      ensures forall k :: k in counts <==> k in old(counts)
      ensures forall k :: k in counts ==> counts[k] == old(counts)[k] + multiset(folds)[k]
      ensures Total() == old(Total()) + |folds|
    {
      var labels := SortedDistinct(folds);
      ghost var start := counts;
      var ms := multiset(folds);
      var i := 0;
      while i < |labels|
        invariant 0 <= i <= |labels|
        invariant forall k :: k in counts <==> k in start
        invariant forall k :: k in counts ==> counts[k] == start[k] + (if k in labels[..i] then ms[k] else 0)
      {
        var k := labels[i];
        assert k in Elems(folds);
        assert k !in labels[..i];
        assert labels[..i + 1] == labels[..i] + [k];
        counts := counts[k := counts[k] + ms[k]];
        i := i + 1;
      }
      assert labels[..i] == labels;
      forall k | k in counts
        ensures counts[k] == start[k] + ms[k]
      {
        if k !in labels {
          assert k !in Elems(folds);
        }
      }
      SumCountsAdd(start, counts, ms, K);
      LabelsAreCounted(folds, K);
    }

    /** `__call__`: draws a label per point and adds them to the counts. */
    method Call(indexes: seq<(int, int)>) returns (folds: seq<int>)
      requires Valid()
      modifies this, rnd
      ensures Valid()
      ensures |folds| == |indexes|
      ensures forall i :: 0 <= i < |folds| ==> 1 <= folds[i] <= K
      ensures forall i :: 0 <= i < |folds| ==> folds[i] == DrawAt(rnd.stream, 1, K + 1, old(rnd.drawn) + i)
      ensures rnd.drawn == old(rnd.drawn) + |indexes|
      ensures forall k :: k in counts <==> k in old(counts)
      ensures forall k :: k in counts ==> counts[k] == old(counts)[k] + multiset(folds)[k]
      ensures Total() == old(Total()) + |indexes|
    {
      folds := GenerateFolds(indexes);
      RecordCounts(folds);
    }
  }

  /**
   * `int(np.ceil(a / b))`: the true quotient rounded up, for a divisor of
   * either sign. For a positive `b` it is the number of blocks of size `b`
   * needed to cover `a` pixels.
   */
  function CeilDiv(a: int, b: int): (r: int)
    requires b != 0
    ensures b > 0 ==> a <= r * b && (r - 1) * b < a
    ensures b < 0 ==> r * b <= a && a < (r - 1) * b
  {
    -FloorDiv(-a, b)
  }

  /**
   * A negative block size never gives a positive grid side: the side is 0
   * when the image side is shorter than the block size's magnitude and
   * negative otherwise.
   */
  lemma NegativeBlockSize(a: nat, b: int)
    requires b < 0
    ensures CeilDiv(a, b) <= 0
    ensures CeilDiv(a, b) == 0 <==> a < -b
  {
    var r := CeilDiv(a, b);
    assert 0 < (r - 1) * b;
    assert r == 0 ==> a < -b;
  }

  /** Block `(i, j)` has a label in 1..K that differs from the block above and the block to the left. */
  ghost predicate BlockOk(folds: array2<int>, K: int, i: int, j: int)
    requires 0 <= i < folds.Length0 && 0 <= j < folds.Length1
    reads folds
  {
    && 1 <= folds[i, j] <= K
    && (i > 0 ==> folds[i, j] != folds[i - 1, j])
    && (j > 0 ==> folds[i, j] != folds[i, j - 1])
  }

  ghost predicate GridOk(folds: array2<int>, K: int)
    reads folds
  {
    forall i, j :: 0 <= i < folds.Length0 && 0 <= j < folds.Length1 ==> BlockOk(folds, K, i, j)
  }

  /**
   * The retry loop always has a label to find: with K >= 3 two neighbours
   * exclude at most two labels, and with K == 2 the grid is a checkerboard, so
   * the blocks above and to the left (both differing from the diagonal block)
   * carry the same label.
   */
  lemma AllowedLabelExists(K: int, up: int, left: int, diag: int) returns (f: int)
    requires K > 1
    requires up == 0 || 1 <= up <= K
    requires left == 0 || 1 <= left <= K
    requires K == 2 && up != 0 && left != 0 ==> 1 <= diag <= K && up != diag && left != diag
    ensures 1 <= f <= K && f != up && f != left
  {
    if up != 1 && left != 1 {
      f := 1;
    } else if up != 2 && left != 2 {
      f := 2;
    } else {
      f := 3;
    }
  }

  /**
   * The retry loop of `_gen_rand_blk_folds_array`: draws labels in `[1, K]`
   * until one is outside `excl`. It ends because some label `allowed` is
   * outside `excl` and a fair stream draws it again.
   */
  method DrawAllowed(K: int, excl: set<int>, rnd: RandomState, ghost allowed: int) returns (f: int)
    requires K > 1 && Fair(rnd.stream) && 0 in excl
    requires 1 <= allowed <= K && allowed !in excl
    modifies rnd
    ensures 1 <= f <= K && f !in excl
  {
    assert Recurs(rnd.stream, rnd.drawn, allowed - 1, K);
    ghost var target: nat :| target >= rnd.drawn && K > 0 && rnd.stream(target) % K == allowed - 1;
    f := 0;
    while f in excl
      invariant rnd.drawn <= target + 1
      invariant f in excl ==> rnd.drawn <= target
      invariant f !in excl ==> 1 <= f <= K
      decreases target + 1 - rnd.drawn
    {
      f := rnd.RandInt(1, K + 1);
    }
  }

  /**
   * `_gen_rand_blk_folds_array`: fills the block grid row by row, redrawing
   * each label until it differs from the labels above and to the left.
   */
  method GenRandBlkFoldsArray(rows: nat, cols: nat, K: int, rnd: RandomState) returns (folds: array2<int>)
    requires K > 1 && Fair(rnd.stream)
    modifies rnd
    ensures fresh(folds) && folds.Length0 == rows && folds.Length1 == cols
    ensures GridOk(folds, K)
  {
    folds := new int[rows, cols]((_, _) => 0);
    for i := 0 to rows
      invariant forall a, b :: 0 <= a < i && 0 <= b < cols ==> BlockOk(folds, K, a, b)
    {
      for j := 0 to cols
        invariant forall a, b :: 0 <= a < i && 0 <= b < cols ==> BlockOk(folds, K, a, b)
        invariant forall b :: 0 <= b < j ==> BlockOk(folds, K, i, b)
      {
        var up := if i > 0 then folds[i - 1, j] else 0;
        var left := if j > 0 then folds[i, j - 1] else 0;
        var excl := {0, up, left};
        if i > 0 {
          assert BlockOk(folds, K, i - 1, j);
        }
        if j > 0 {
          assert BlockOk(folds, K, i, j - 1);
        }
        if i > 0 && j > 0 {
          assert BlockOk(folds, K, i - 1, j - 1);
        }
        ghost var diag := if i > 0 && j > 0 then folds[i - 1, j - 1] else 1;
        ghost var allowed := AllowedLabelExists(K, up, left, diag);
        var f := DrawAllowed(K, excl, rnd, allowed);
        label Before:
        folds[i, j] := f;
        forall a, b | 0 <= a < i && 0 <= b < cols
          ensures BlockOk(folds, K, a, b)
        {
          assert old@Before(BlockOk(folds, K, a, b));
        }
        forall b | 0 <= b < j
          ensures BlockOk(folds, K, i, b)
        {
          assert old@Before(BlockOk(folds, K, i, b));
        }
      }
    }
  }

  /** The block grid's sides for `(im_shape, block_size_px)`; numpy allocates it when neither is negative. */
  predicate GridShapeOk(imShape: (nat, nat), blockSizePx: int)
  {
    blockSizePx != 0 && CeilDiv(imShape.0, blockSizePx) >= 0 && CeilDiv(imShape.1, blockSizePx) >= 0
  }

  /**
   * `BlockedKFolder(im_shape, block_size_px, K, random_seed)` with its
   * errors: a zero block size raises ZeroDivisionError when the grid rows
   * are computed, and a grid side that comes out negative makes `np.full`
   * raise ValueError.
   */
  method NewBlockedKFolder(imShape: (nat, nat), blockSizePx: int, K: int, stream: nat -> nat)
    returns (r: Result<BlockedKFolder, Exception>)
    requires K > 1 && Fair(stream)
    ensures r.Success? <==> GridShapeOk(imShape, blockSizePx)
    ensures blockSizePx == 0 ==> r == Failure(ZeroDivisionError)
    ensures blockSizePx != 0 && r.Failure? ==> r.error == ValueError
    ensures r.Success? ==> fresh(r.value) && r.value.Valid()
    ensures r.Success? ==> r.value.base.K == K && r.value.base.counts == ZeroCounts(K)
    ensures r.Success? ==> r.value.imShape == imShape && r.value.blockSizePx == blockSizePx
  {
    if blockSizePx == 0 {
      return Failure(ZeroDivisionError);
    }
    if !GridShapeOk(imShape, blockSizePx) {
      return Failure(ValueError);
    }
    var folder := new BlockedKFolder(imShape, blockSizePx, K, stream);
    return Success(folder);
  }

  /** `BlockedKFolder`: labels are drawn per image block at construction and looked up per point. */
  class BlockedKFolder {
    /** The `KFolder` state this class inherits: `K`, the generator and the counts. */
    const base: KFolder
    const imShape: (nat, nat)
    const blockSizePx: int
    const blockFolds: array2<int>

    ghost predicate Valid()
      reads this, base, blockFolds
    {
      && base.Valid()
      && GridShapeOk(imShape, blockSizePx)
      && blockFolds.Length0 == CeilDiv(imShape.0, blockSizePx)
      && blockFolds.Length1 == CeilDiv(imShape.1, blockSizePx)
      && GridOk(blockFolds, base.K)
    }

    /** The construction that succeeds; `NewBlockedKFolder` returns the errors. */
    constructor (imShape: (nat, nat), blockSizePx: int, K: int, stream: nat -> nat)
      requires K > 1 && GridShapeOk(imShape, blockSizePx) && Fair(stream)
      ensures Valid() && fresh(base) && fresh(base.rnd) && fresh(blockFolds)
      ensures base.K == K && base.counts == ZeroCounts(K)
      ensures this.imShape == imShape && this.blockSizePx == blockSizePx
    {
      var folder := new KFolder(K, stream);
      var grid := GenRandBlkFoldsArray(CeilDiv(imShape.0, blockSizePx), CeilDiv(imShape.1, blockSizePx), K, folder.rnd);
      base := folder;
      this.imShape := imShape;
      this.blockSizePx := blockSizePx;
      blockFolds := grid;
    }

    /** `indexes // block_size_px` for one point (Python floor division). */
    function BlockOf(ix: (int, int)): (int, int)
      reads this
      requires blockSizePx != 0
    {
      (FloorDiv(ix.0, blockSizePx), FloorDiv(ix.1, blockSizePx))
    }

    /** `block_folds[b0, b1]` for the block of `ix`, with numpy's index rules. */
    function FoldOf(ix: (int, int)): (r: Result<int, Exception>)
      reads this, base, blockFolds
      requires Valid()
      ensures r.Success? ==> 1 <= r.value <= base.K
    {
      var b := BlockOf(ix);
      match Index(b.0, blockFolds.Length0)
      case Failure(e) => Failure(e)
      case Success(row) =>
        match Index(b.1, blockFolds.Length1)
        case Failure(e) => Failure(e)
        case Success(col) =>
          assert BlockOk(blockFolds, base.K, row, col);
          Success(blockFolds[row, col])
    }

    /**
     * `generate_folds`: the label of each point's block. Points of one block
     * get one label; nothing is drawn from the generator.
     */
    function GenerateFolds(indexes: seq<(int, int)>): (r: Result<seq<int>, Exception>)
      reads this, base, blockFolds
      requires Valid()
      ensures r.Success? <==> forall i :: 0 <= i < |indexes| ==> FoldOf(indexes[i]).Success?
      ensures r.Success? ==> |r.value| == |indexes|
      ensures r.Success? ==> forall i :: 0 <= i < |indexes| ==>
        r.value[i] == FoldOf(indexes[i]).value && 1 <= r.value[i] <= base.K
      ensures r.Success? ==> forall i, j ::
        (0 <= i < |indexes| && 0 <= j < |indexes| && BlockOf(indexes[i]) == BlockOf(indexes[j]))
        ==> r.value[i] == r.value[j]
    {
      if indexes == [] then Success([])
      else
        match GenerateFolds(indexes[..|indexes| - 1])
        case Failure(e) => Failure(e)
        case Success(init) =>
          match FoldOf(indexes[|indexes| - 1])
          case Failure(e) => Failure(e)
          case Success(f) => Success(init + [f])
    }

    /** `__call__` as inherited from `KFolder`, with the blocked `generate_folds`. */
    method Call(indexes: seq<(int, int)>) returns (r: Result<seq<int>, Exception>)
      requires Valid()
      modifies base
      ensures Valid()
      ensures r == old(GenerateFolds(indexes))
      ensures base.rnd.drawn == old(base.rnd.drawn)
      ensures r.Success? ==> forall k :: k in base.counts ==> k in old(base.counts) && base.counts[k] == old(base.counts)[k] + multiset(r.value)[k]
      ensures r.Success? ==> base.Total() == old(base.Total()) + |indexes|
      ensures r.Failure? ==> base.counts == old(base.counts)
    {
      r := GenerateFolds(indexes);
      if r.Success? {
        base.RecordCounts(r.value);
      }
    }
  }
}
