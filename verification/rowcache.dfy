/**
 * The row cache of the query path (landshark/dataprocess.py, `_as_range`,
 * `_slices_from_patches` and `_get_rows`): the distinct rows the read ops
 * touch are sorted and grouped into runs of consecutive rows, each run is read
 * as one slice of the feature array, and the rows read are kept in a
 * dictionary keyed by row number, from which `_cached_read` takes its values.
 */
module RowCache {
  import opened Py
  import opened Seqs
  import opened BaseTypes
  import opened PatchRead

  // ---------------------------------------------------------------------
  // Runs of consecutive rows
  // ---------------------------------------------------------------------

  /** Each element is one more than the element before it. */
  predicate Consecutive(g: seq<int>)
  {
    forall i :: 0 <= i < |g| - 1 ==> g[i + 1] == g[i] + 1
  }

  function Last(g: seq<int>): int
    requires |g| >= 1
  {
    g[|g| - 1]
  }

  lemma {:induction false} ConsecutiveValues(g: seq<int>)
    requires Consecutive(g)
    ensures forall i :: 0 <= i < |g| ==> g[i] == g[0] + i
  {
    if |g| > 1 {
      var init := g[..|g| - 1];
      assert forall i :: 0 <= i < |init| ==> init[i] == g[i];
      ConsecutiveValues(init);
      assert g[|g| - 1] == g[|g| - 2] + 1;
      assert g[|g| - 2] == init[|g| - 2] == g[0] + |g| - 2;
    }
  }

  /**
   * `_as_range`: from the group's first element to one past its last; the
   * one-element case, handled apart, gives the same slice.
   */
  function AsRange(g: seq<int>): (r: FixedSlice)
    requires |g| >= 1
    ensures r == FixedSlice(g[0], Last(g) + 1)
  {
    if |g| > 1 then FixedSlice(g[0], g[|g| - 1] + 1) else FixedSlice(g[0], g[0] + 1)
  }

  /** A run of consecutive rows becomes the slice holding exactly its rows. */
  lemma AsRangeCovers(g: seq<int>)
    requires |g| >= 1 && Consecutive(g)
    ensures Last(g) == g[0] + |g| - 1
    ensures forall y :: InSlice(AsRange(g), y) <==> y in g
  {
    ConsecutiveValues(g);
    forall y | InSlice(AsRange(g), y)
      ensures y in g
    {
      assert g[y - g[0]] == y;
    }
  }

  /** The `groupby` key `n - next(c)` of the element at position `k`. */
  function RunKey(xs: seq<int>, k: nat): int
    requires k < |xs|
  {
    xs[k] - k
  }

  /**
   * `groupby(xs, key=RunKey)`: the maximal stretches of adjacent elements
   * with equal keys, in order.
   */
  function Runs(xs: seq<int>): (r: seq<seq<int>>)
    ensures r == [] <==> xs == []
  {
    if xs == [] then []
    else
      var n := |xs| - 1;
      var init := Runs(xs[..n]);
      if n > 0 && RunKey(xs, n) == RunKey(xs, n - 1) then
        init[..|init| - 1] + [init[|init| - 1] + [xs[n]]]
      else
        init + [[xs[n]]]
  }

  /** Every run is non-empty, and the last run ends with the last element. */
  lemma {:induction false} RunsNonEmpty(xs: seq<int>)
    ensures forall k :: 0 <= k < |Runs(xs)| ==> |Runs(xs)[k]| >= 1
    ensures xs != [] ==> Last(Runs(xs)[|Runs(xs)| - 1]) == xs[|xs| - 1]
  {
    if xs != [] {
      var n := |xs| - 1;
      var init := Runs(xs[..n]);
      var r := Runs(xs);
      RunsNonEmpty(xs[..n]);
      if n > 0 && RunKey(xs, n) == RunKey(xs, n - 1) {
        var m := |init| - 1;
        assert r == init[..m] + [init[m] + [xs[n]]];
        forall k | 0 <= k < |r|
          ensures |r[k]| >= 1
        {
          if k < m {
            assert r[k] == init[k];
          }
        }
      } else {
        assert r == init + [[xs[n]]];
        forall k | 0 <= k < |r|
          ensures |r[k]| >= 1
        {
          if k < |init| {
            assert r[k] == init[k];
          }
        }
      }
    }
  }

  /** The runs concatenate back to the input. */
  lemma {:induction false} RunsFlatten(xs: seq<int>)
    ensures Flatten(Runs(xs)) == xs
  {
    if xs != [] {
      var n := |xs| - 1;
      var init := Runs(xs[..n]);
      RunsFlatten(xs[..n]);
      if n > 0 && RunKey(xs, n) == RunKey(xs, n - 1) {
        var m := |init| - 1;
        var front := init[..m];
        assert init == front + [init[m]];
        assert Flatten(init) == Flatten(front) + init[m];
        FlattenAppend(front, init[m] + [xs[n]]);
        assert Flatten(front) + (init[m] + [xs[n]]) == xs[..n] + [xs[n]];
      } else {
        FlattenAppend(init, [xs[n]]);
      }
      assert xs[..n] + [xs[n]] == xs;
    }
  }

  /** A run stays consecutive when the element after its last is appended. */
  lemma ConsecutiveSnoc(g: seq<int>, x: int)
    requires |g| >= 1 && Consecutive(g) && x == Last(g) + 1
    ensures Consecutive(g + [x])
  {
    var h := g + [x];
    forall i | 0 <= i < |h| - 1
      ensures h[i + 1] == h[i] + 1
    {
      if i < |g| - 1 {
        assert h[i] == g[i] && h[i + 1] == g[i + 1];
      }
    }
  }

  /** Each run is a stretch of consecutive integers. */
  lemma {:induction false} RunsConsecutive(xs: seq<int>)
    ensures forall k :: 0 <= k < |Runs(xs)| ==> Consecutive(Runs(xs)[k])
  {
    if xs != [] {
      var n := |xs| - 1;
      var init := Runs(xs[..n]);
      var r := Runs(xs);
      RunsConsecutive(xs[..n]);
      if n > 0 && RunKey(xs, n) == RunKey(xs, n - 1) {
        RunsNonEmpty(xs[..n]);
        var m := |init| - 1;
        var g := init[m] + [xs[n]];
        assert r == init[..m] + [g];
        ConsecutiveSnoc(init[m], xs[n]);
        forall k | 0 <= k < |r|
          ensures Consecutive(r[k])
        {
          if k < m {
            assert r[k] == init[k];
          }
        }
      } else {
        assert r == init + [[xs[n]]];
        forall k | 0 <= k < |r|
          ensures Consecutive(r[k])
        {
          if k < |init| {
            assert r[k] == init[k];
          }
        }
      }
    }
  }

  /** Adjacent runs break exactly where consecutiveness does. */
  lemma {:induction false} RunsBreaks(xs: seq<int>)
    ensures forall k :: 0 <= k < |Runs(xs)| ==> |Runs(xs)[k]| >= 1
    ensures forall k {:trigger Last(Runs(xs)[k])} :: 0 <= k < |Runs(xs)| - 1 ==> Last(Runs(xs)[k]) + 1 != Runs(xs)[k + 1][0]
  {
    RunsNonEmpty(xs);
    if xs != [] {
      var n := |xs| - 1;
      RunsBreaks(xs[..n]);
      RunsNonEmpty(xs[..n]);
      if n > 0 && RunKey(xs, n) == RunKey(xs, n - 1) {
        BreaksKeptByExtend(Runs(xs[..n]), xs[n]);
      } else {
        BreaksKeptByNewRun(Runs(xs[..n]), xs[n]);
      }
    }
  }

  lemma BreaksKeptByExtend(init: seq<seq<int>>, x: int)
    requires |init| >= 1 && forall k :: 0 <= k < |init| ==> |init[k]| >= 1
    requires forall k {:trigger Last(init[k])} :: 0 <= k < |init| - 1 ==> Last(init[k]) + 1 != init[k + 1][0]
    ensures var r := init[..|init| - 1] + [init[|init| - 1] + [x]];
      forall k {:trigger Last(r[k])} :: 0 <= k < |r| - 1 ==> Last(r[k]) + 1 != r[k + 1][0]
  {
    var r := init[..|init| - 1] + [init[|init| - 1] + [x]];
    forall k | 0 <= k < |r| - 1
      ensures Last(r[k]) + 1 != r[k + 1][0]
    {
      assert r[k] == init[k];
      assert r[k + 1][0] == init[k + 1][0];
    }
  }

  lemma BreaksKeptByNewRun(init: seq<seq<int>>, x: int)
    requires forall k :: 0 <= k < |init| ==> |init[k]| >= 1
    requires forall k {:trigger Last(init[k])} :: 0 <= k < |init| - 1 ==> Last(init[k]) + 1 != init[k + 1][0]
    requires init != [] ==> Last(init[|init| - 1]) + 1 != x
    ensures var r := init + [[x]];
      forall k {:trigger Last(r[k])} :: 0 <= k < |r| - 1 ==> Last(r[k]) + 1 != r[k + 1][0]
  {
    var r := init + [[x]];
    forall k | 0 <= k < |r| - 1
      ensures Last(r[k]) + 1 != r[k + 1][0]
    {
      assert r[k] == init[k];
      if k < |init| - 1 {
        assert r[k + 1] == init[k + 1];
      }
    }
  }

  /** In an increasing input every run ends more than one below where the next starts. */
  lemma {:induction false} RunsGaps(xs: seq<int>)
    requires StrictlyIncreasing(xs)
    ensures forall k :: 0 <= k < |Runs(xs)| ==> |Runs(xs)[k]| >= 1
    ensures forall k {:trigger Last(Runs(xs)[k])} :: 0 <= k < |Runs(xs)| - 1 ==> Last(Runs(xs)[k]) + 1 < Runs(xs)[k + 1][0]
  {
    RunsNonEmpty(xs);
    if xs != [] {
      var n := |xs| - 1;
      assert StrictlyIncreasing(xs[..n]);
      RunsGaps(xs[..n]);
      RunsNonEmpty(xs[..n]);
      if n > 0 && RunKey(xs, n) == RunKey(xs, n - 1) {
        GapsKeptByExtend(Runs(xs[..n]), xs[n]);
      } else {
        assert n > 0 ==> xs[n - 1] < xs[n];
        GapsKeptByNewRun(Runs(xs[..n]), xs[n]);
      }
    }
  }

  lemma GapsKeptByExtend(init: seq<seq<int>>, x: int)
    requires |init| >= 1 && forall k :: 0 <= k < |init| ==> |init[k]| >= 1
    requires forall k {:trigger Last(init[k])} :: 0 <= k < |init| - 1 ==> Last(init[k]) + 1 < init[k + 1][0]
    ensures var r := init[..|init| - 1] + [init[|init| - 1] + [x]];
      forall k {:trigger Last(r[k])} :: 0 <= k < |r| - 1 ==> Last(r[k]) + 1 < r[k + 1][0]
  {
    var r := init[..|init| - 1] + [init[|init| - 1] + [x]];
    forall k | 0 <= k < |r| - 1
      ensures Last(r[k]) + 1 < r[k + 1][0]
    {
      assert r[k] == init[k];
      assert r[k + 1][0] == init[k + 1][0];
    }
  }

  lemma GapsKeptByNewRun(init: seq<seq<int>>, x: int)
    requires forall k :: 0 <= k < |init| ==> |init[k]| >= 1
    requires forall k {:trigger Last(init[k])} :: 0 <= k < |init| - 1 ==> Last(init[k]) + 1 < init[k + 1][0]
    requires init != [] ==> Last(init[|init| - 1]) + 1 < x
    ensures var r := init + [[x]];
      forall k {:trigger Last(r[k])} :: 0 <= k < |r| - 1 ==> Last(r[k]) + 1 < r[k + 1][0]
  {
    var r := init + [[x]];
    forall k | 0 <= k < |r| - 1
      ensures Last(r[k]) + 1 < r[k + 1][0]
    {
      assert r[k] == init[k];
      if k < |init| - 1 {
        assert r[k + 1] == init[k + 1];
      }
    }
  }

  // ---------------------------------------------------------------------
  // Slices from the read ops
  // ---------------------------------------------------------------------

  /** The source row of each read op. */
  function RowsRead(patchReads: seq<ReadOp>): (ys: seq<int>)
    ensures |ys| == |patchReads| && forall k :: 0 <= k < |ys| ==> ys[k] == patchReads[k].y
  {
    seq(|patchReads|, k requires 0 <= k < |patchReads| => patchReads[k].y)
  }

  /** Some read op reads row `y`. */
  predicate ReadsRow(patchReads: seq<ReadOp>, y: int)
  {
    exists j :: 0 <= j < |patchReads| && patchReads[j].y == y
  }

  /** Some slice holds row `y`. */
  predicate Covers(slices: seq<FixedSlice>, y: int)
  {
    exists k :: 0 <= k < |slices| && InSlice(slices[k], y)
  }

  /**
   * `_slices_from_patches`: one slice per run of consecutive rows among the
   * sorted distinct rows read; there are none exactly when there are no read
   * ops.
   */
  function SlicesFromPatches(patchReads: seq<ReadOp>): (slices: seq<FixedSlice>)
    ensures slices == [] <==> patchReads == []
  {
    var ys := RowsRead(patchReads);
    var runs := Runs(SortedDistinct(ys));
    RunsNonEmpty(SortedDistinct(ys));
    assert patchReads != [] ==> ys[0] in Elems(ys);
    seq(|runs|, k requires 0 <= k < |runs| => AsRange(runs[k]))
  }

  /** The slices cover exactly the rows the read ops read. */
  lemma SlicesCoverRowsRead(patchReads: seq<ReadOp>)
    ensures forall y :: Covers(SlicesFromPatches(patchReads), y) <==> ReadsRow(patchReads, y)
  {
    var ys := RowsRead(patchReads);
    var sd := SortedDistinct(ys);
    var runs := Runs(sd);
    var s := SlicesFromPatches(patchReads);
    RunsFlatten(sd);
    RunsNonEmpty(sd);
    RunsConsecutive(sd);
    forall y
      ensures Covers(s, y) <==> ReadsRow(patchReads, y)
    {
      InFlatten(runs, y);
      assert y in sd <==> y in Elems(ys);
      if Covers(s, y) {
        var k :| 0 <= k < |s| && InSlice(s[k], y);
        AsRangeCovers(runs[k]);
        var j :| 0 <= j < |ys| && ys[j] == y;
        assert patchReads[j].y == y;
      }
      if ReadsRow(patchReads, y) {
        var j :| 0 <= j < |patchReads| && patchReads[j].y == y;
        assert ys[j] == y;
        var k :| 0 <= k < |runs| && y in runs[k];
        AsRangeCovers(runs[k]);
        assert InSlice(s[k], y);
      }
    }
  }

  /** The slices are non-empty, increasing and separated by at least one row. */
  lemma SlicesSeparated(patchReads: seq<ReadOp>)
    ensures var s := SlicesFromPatches(patchReads);
      && (forall k :: 0 <= k < |s| ==> s[k].start < s[k].stop)
      && (forall k {:trigger s[k].stop} :: 0 <= k < |s| - 1 ==> s[k].stop < s[k + 1].start)
  {
    var sd := SortedDistinct(RowsRead(patchReads));
    var runs := Runs(sd);
    var s := SlicesFromPatches(patchReads);
    RunsNonEmpty(sd);
    RunsConsecutive(sd);
    RunsGaps(sd);
    forall k | 0 <= k < |s|
      ensures s[k].start < s[k].stop
    {
      AsRangeCovers(runs[k]);
    }
    forall k | 0 <= k < |s| - 1
      ensures s[k].stop < s[k + 1].start
    {
      AsRangeCovers(runs[k]);
      AsRangeCovers(runs[k + 1]);
    }
  }

  /** Every slice starts at a row some read op reads. */
  lemma SliceStartsRead(patchReads: seq<ReadOp>, k: nat)
    requires k < |SlicesFromPatches(patchReads)|
    ensures ReadsRow(patchReads, SlicesFromPatches(patchReads)[k].start)
  {
    SlicesCoverRowsRead(patchReads);
    SlicesSeparated(patchReads);
    var s := SlicesFromPatches(patchReads);
    assert InSlice(s[k], s[k].start);
    assert Covers(s, s[k].start);
  }

  // ---------------------------------------------------------------------
  // The row dictionary
  // ---------------------------------------------------------------------

  /** The element of `d` stored under key `i` when `d`'s first element goes under `start`. */
  function Offset<V>(d: seq<V>, start: int, i: int): V
    requires start <= i < start + |d|
  {
    d[i - start]
  }

  /** `zip(range(start, start + m), d)`, as a dictionary. */
  function Entries<V>(d: seq<V>, start: int, m: nat): map<int, V>
    requires m <= |d|
  {
    map i | start <= i < start + m :: Offset(d, start, i)
  }

  /** The rows cached from one slice: `zip(range(start, stop), array[start:stop])`. */
  function SliceEntries<V>(s: FixedSlice, rows: seq<V>): (entries: map<int, V>)
    ensures forall i :: i in entries ==> InSlice(s, i)
  {
    var d := Slice(rows, s.start, s.stop);
    Entries(d, s.start, Min(Max(0, s.stop - s.start), |d|))
  }

  /**
   * `_get_rows`: the entries of every slice, a later slice overwriting an
   * earlier one. Only rows some slice covers become keys.
   */
  function RowDict<V>(slices: seq<FixedSlice>, rows: seq<V>): (data: map<int, V>)
    ensures forall i :: i in data ==> Covers(slices, i)
  {
    if slices == [] then map[]
    else
      CoversSnoc(slices);
      RowDict(slices[..|slices| - 1], rows) + SliceEntries(slices[|slices| - 1], rows)
  }

  lemma EntriesStep<V>(before: map<int, V>, d: seq<V>, start: int, t: nat)
    requires t < |d|
    ensures (before + Entries(d, start, t))[start + t := d[t]] == before + Entries(d, start, t + 1)
  {
    assert Offset(d, start, start + t) == d[t];
  }

  /** The inner loop of `_get_rows`: stores `d`'s first `m` rows under `start`, `start + 1`, ... */
  method StoreRows<V>(data: map<int, V>, d: seq<V>, start: int, m: nat) returns (stored: map<int, V>)
    requires m <= |d|
    ensures stored == data + Entries(d, start, m)
  {
    stored := data;
    for t := 0 to m
      invariant stored == data + Entries(d, start, t)
    {
      EntriesStep(data, d, start, t);
      stored := stored[start + t := d[t]];
    }
  }

  /** `_get_rows`: reads every slice, then stores its rows one by one under their row numbers. */
  method GetRows<V>(slices: seq<FixedSlice>, rows: seq<V>) returns (data: map<int, V>)
    ensures data == RowDict(slices, rows)
  {
    var dataSlices := seq(|slices|, j requires 0 <= j < |slices| => Slice(rows, slices[j].start, slices[j].stop));
    data := map[];
    for j := 0 to |slices|
      invariant data == RowDict(slices[..j], rows)
    {
      assert slices[..j + 1][..j] == slices[..j];
      var s, d := slices[j], dataSlices[j];
      data := StoreRows(data, d, s.start, Min(Max(0, s.stop - s.start), |d|));
    }
    assert slices[..|slices|] == slices;
  }

  /**
   * A slice with a non-negative start caches exactly its rows that exist,
   * each under its own row number.
   */
  lemma SliceEntriesContents<V>(s: FixedSlice, rows: seq<V>)
    requires 0 <= s.start
    ensures forall i :: i in SliceEntries(s, rows) <==> InSlice(s, i) && i < |rows|
    ensures forall i :: i in SliceEntries(s, rows) ==> 0 <= i < |rows| && SliceEntries(s, rows)[i] == rows[i]
  {
    if s.start <= s.stop {
      var d := Slice(rows, s.start, s.stop);
      assert d == rows[Min(s.start, |rows|)..Min(s.stop, |rows|)];
    }
  }

  /** With non-negative slice starts, the dictionary's keys are exactly the existing rows some slice covers. */
  lemma {:induction false} RowDictKeys<V>(slices: seq<FixedSlice>, rows: seq<V>)
    requires forall k :: 0 <= k < |slices| ==> 0 <= slices[k].start
    ensures forall i :: i in RowDict(slices, rows) <==> i < |rows| && Covers(slices, i)
  {
    if slices != [] {
      var init := slices[..|slices| - 1];
      var last := slices[|slices| - 1];
      assert RowDict(slices, rows) == RowDict(init, rows) + SliceEntries(last, rows);
      assert forall k :: 0 <= k < |init| ==> init[k] == slices[k];
      RowDictKeys(init, rows);
      SliceEntriesContents(last, rows);
      CoversSnoc(slices);
    }
  }

  /** A row is covered by some slice exactly when it is covered by one of the first ones or by the last. */
  lemma CoversSnoc(slices: seq<FixedSlice>)
    requires slices != []
    ensures forall i :: Covers(slices, i) <==>
      Covers(slices[..|slices| - 1], i) || InSlice(slices[|slices| - 1], i)
  {
    var init := slices[..|slices| - 1];
    forall i
      ensures Covers(slices, i) <==> Covers(init, i) || InSlice(slices[|slices| - 1], i)
    {
      if Covers(slices, i) {
        var k :| 0 <= k < |slices| && InSlice(slices[k], i);
        if k < |init| {
          assert init[k] == slices[k];
        }
      }
      if Covers(init, i) {
        var k :| 0 <= k < |init| && InSlice(init[k], i);
        assert slices[k] == init[k];
      }
    }
  }

  /** With non-negative slice starts, the dictionary maps each of its keys to that row of the array. */
  lemma {:induction false} RowDictValues<V>(slices: seq<FixedSlice>, rows: seq<V>)
    requires forall k :: 0 <= k < |slices| ==> 0 <= slices[k].start
    ensures forall i :: i in RowDict(slices, rows) ==> 0 <= i < |rows| && RowDict(slices, rows)[i] == rows[i]
  {
    if slices != [] {
      var init := slices[..|slices| - 1];
      var last := slices[|slices| - 1];
      assert RowDict(slices, rows) == RowDict(init, rows) + SliceEntries(last, rows);
      assert forall k :: 0 <= k < |init| ==> init[k] == slices[k];
      RowDictValues(init, rows);
      SliceEntriesContents(last, rows);
    }
  }

  // ---------------------------------------------------------------------
  // The cached read agrees with the direct read
  // ---------------------------------------------------------------------

  /** Two sources that fetch the same values for every read op give the same reads. */
  lemma {:induction false} ApplyReadsCongruent<T>(a: Source<T>, b: Source<T>, patchReads: seq<ReadOp>,
                                                  cells: seq<seq<T>>, npatches: nat, pw: nat)
    requires forall k :: 0 <= k < |patchReads| ==>
      Fetch(a, patchReads[k].y, patchReads[k].x) == Fetch(b, patchReads[k].y, patchReads[k].x)
    ensures ApplyReads(a, patchReads, cells, npatches, pw) == ApplyReads(b, patchReads, cells, npatches, pw)
  {
    if patchReads != [] {
      var init := patchReads[..|patchReads| - 1];
      assert forall k :: 0 <= k < |init| ==> init[k] == patchReads[k];
      ApplyReadsCongruent(a, b, init, cells, npatches, pw);
    }
  }

  /** Within the array, the row cache hands out every row read exactly as the array does. */
  lemma CachedFetchMatchesDirect<T>(rows: seq<seq<seq<T>>>, patchReads: seq<ReadOp>, k: nat)
    requires k < |patchReads| && 0 <= patchReads[k].y < |rows|
    requires forall j :: 0 <= j < |patchReads| ==> 0 <= patchReads[j].y
    ensures Fetch(Cached(RowDict(SlicesFromPatches(patchReads), rows)), patchReads[k].y, patchReads[k].x)
            == Fetch(Direct(rows), patchReads[k].y, patchReads[k].x)
  {
    var slices := SlicesFromPatches(patchReads);
    var rowDict := RowDict(slices, rows);
    forall i | 0 <= i < |slices|
      ensures 0 <= slices[i].start
    {
      SliceStartsRead(patchReads, i);
    }
    RowDictKeys(slices, rows);
    RowDictValues(slices, rows);
    SlicesCoverRowsRead(patchReads);
    var y := patchReads[k].y;
    assert ReadsRow(patchReads, y);
    assert y in rowDict && rowDict[y] == rows[y];
    assert Index(y, |rows|) == Success(y);
  }

  /** Every read op of an existing row fetches the same value from the cache as from the array. */
  lemma CachedFetchesMatchDirect<T>(rows: seq<seq<seq<T>>>, patchReads: seq<ReadOp>)
    requires forall k :: 0 <= k < |patchReads| ==> 0 <= patchReads[k].y < |rows|
    ensures forall k :: 0 <= k < |patchReads| ==>
      Fetch(Cached(RowDict(SlicesFromPatches(patchReads), rows)), patchReads[k].y, patchReads[k].x)
      == Fetch(Direct(rows), patchReads[k].y, patchReads[k].x)
  {
    forall k | 0 <= k < |patchReads|
      ensures Fetch(Cached(RowDict(SlicesFromPatches(patchReads), rows)), patchReads[k].y, patchReads[k].x)
              == Fetch(Direct(rows), patchReads[k].y, patchReads[k].x)
    {
      CachedFetchMatchesDirect(rows, patchReads, k);
    }
  }

  /**
   * When every read op reads an existing row, reading through the row cache
   * built by `_slices_from_patches` and `_get_rows` gives exactly what
   * reading the array directly gives.
   */
  lemma CachedMatchesDirect<T>(rows: seq<seq<seq<T>>>, nfeatures: nat, missing: Option<T>, patchReads: seq<ReadOp>,
                               maskReads: seq<MaskOp>, npatches: nat, pw: nat, zero: T)
    requires forall k :: 0 <= k < |patchReads| ==> 0 <= patchReads[k].y < |rows|
    ensures Assemble(Cached(RowDict(SlicesFromPatches(patchReads), rows)), nfeatures, missing, patchReads,
                     maskReads, npatches, pw, zero)
            == Assemble(Direct(rows), nfeatures, missing, patchReads, maskReads, npatches, pw, zero)
  {
    CachedFetchesMatchDirect(rows, patchReads);
    AssembleCongruent(Cached(RowDict(SlicesFromPatches(patchReads), rows)), Direct(rows), nfeatures, missing,
                      patchReads, maskReads, npatches, pw, zero);
  }

  /** Two sources whose reads agree assemble the same patches. */
  lemma AssembleCongruent<T>(a: Source<T>, b: Source<T>, nfeatures: nat, missing: Option<T>, patchReads: seq<ReadOp>,
                             maskReads: seq<MaskOp>, npatches: nat, pw: nat, zero: T)
    requires forall k :: 0 <= k < |patchReads| ==>
      Fetch(a, patchReads[k].y, patchReads[k].x) == Fetch(b, patchReads[k].y, patchReads[k].x)
    ensures Assemble(a, nfeatures, missing, patchReads, maskReads, npatches, pw, zero)
            == Assemble(b, nfeatures, missing, patchReads, maskReads, npatches, pw, zero)
  {
    ApplyReadsCongruent(a, b, patchReads, Fill(npatches * pw * pw, nfeatures, zero), npatches, pw);
  }
}
