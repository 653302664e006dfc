/**
 * Writing serialised records (landshark/tfwrite.py): splitting a batch into
 * its training and testing records by fold, and a writer that appends batches
 * to numbered files, starting a new file once the current one is over the
 * size limit.
 */
module TfWrite {
  import opened Py
  import opened Seqs

  /** One serialised example. */
  type Record = seq<bv8>

  /** The size in whole megabytes past which a new file is started. */
  const FILESIZE_MB := 100

  const BYTES_PER_MB := 1024 * 1024

  // ---------------------------------------------------------------------
  // _split_on_mask
  // ---------------------------------------------------------------------

  /** `[i for i, m in enumerate(mask) if m]`: the positions where `mask` holds, in order. */
  function MaskIndices(mask: seq<bool>): (idx: seq<nat>)
    ensures forall k :: 0 <= k < |idx| ==> idx[k] < |mask| && mask[idx[k]]
    ensures forall i :: 0 <= i < |mask| && mask[i] ==> i in idx
    ensures forall a, b :: 0 <= a < b < |idx| ==> idx[a] < idx[b]
  {
    if mask == [] then []
    else
      var n := |mask| - 1;
      var init := MaskIndices(mask[..n]);
      if mask[n] then init + [n] else init
  }

  /** `folds != testfold`, or its negation `~mask` when `test` holds. */
  function FoldMask(folds: seq<int>, testfold: int, test: bool): (mask: seq<bool>)
    ensures |mask| == |folds|
  {
    seq(|folds|, i requires 0 <= i < |folds| => (folds[i] == testfold) == test)
  }

  /** `[data[i] for i in idx]`. */
  function Gather<T>(data: seq<T>, idx: seq<nat>): (r: seq<T>)
    requires forall k :: 0 <= k < |idx| ==> idx[k] < |data|
    ensures |r| == |idx|
  {
    seq(|idx|, k requires 0 <= k < |idx| => data[idx[k]])
  }

  /**
   * Reference filter: the first `|folds|` records whose fold is (`test`) or
   * is not (`!test`) the test fold, in their original order.
   */
  function Keep<T>(data: seq<T>, folds: seq<int>, testfold: int, test: bool): seq<T>
    requires |folds| <= |data|
  {
    if folds == [] then []
    else
      var n := |folds| - 1;
      Keep(data, folds[..n], testfold, test) + (if (folds[n] == testfold) == test then [data[n]] else [])
  }

  lemma {:induction false} GatherKeep<T>(data: seq<T>, folds: seq<int>, testfold: int, test: bool)
    requires |folds| <= |data|
    ensures Gather(data, MaskIndices(FoldMask(folds, testfold, test))) == Keep(data, folds, testfold, test)
  {
    if folds != [] {
      var n := |folds| - 1;
      var mask := FoldMask(folds, testfold, test);
      assert mask[..n] == FoldMask(folds[..n], testfold, test);
      GatherKeep(data, folds[..n], testfold, test);
      var init := MaskIndices(mask[..n]);
      if mask[n] {
        assert Gather(data, init + [n]) == Gather(data, init) + [data[n]];
      }
    }
  }

  /**
   * `_split_on_mask`: the training records (fold other than `testfold`) and
   * the testing records (fold `testfold`), each in order. It raises
   * IndexError exactly when some fold has no record, that is when there are
   * more folds than records.
   */
  function SplitOnMask<T>(data: seq<T>, folds: seq<int>, testfold: int): (r: Result<(seq<T>, seq<T>), Exception>)
    ensures r.Failure? <==> |folds| > |data|
    ensures r.Failure? ==> r.error == IndexError
    ensures r.Success? ==> r.value == (Keep(data, folds, testfold, false), Keep(data, folds, testfold, true))
  {
    var trainIdx := MaskIndices(FoldMask(folds, testfold, false));
    var testIdx := MaskIndices(FoldMask(folds, testfold, true));
    if exists k :: 0 <= k < |trainIdx| && trainIdx[k] >= |data| then Failure(IndexError)
    else if exists k :: 0 <= k < |testIdx| && testIdx[k] >= |data| then Failure(IndexError)
    else
      assert |folds| <= |data| by {
        if folds != [] {
          var i := |folds| - 1;
          if folds[i] == testfold {
            assert FoldMask(folds, testfold, true)[i];
            var k :| 0 <= k < |testIdx| && testIdx[k] == i;
            assert testIdx[k] < |data|;
          } else {
            assert FoldMask(folds, testfold, false)[i];
            var k :| 0 <= k < |trainIdx| && trainIdx[k] == i;
            assert trainIdx[k] < |data|;
          }
        }
      }
      GatherKeep(data, folds, testfold, false);
      GatherKeep(data, folds, testfold, true);
      Success((Gather(data, trainIdx), Gather(data, testIdx)))
  }

  /** Every one of the first `|folds|` records lands in exactly one of the two filters. */
  lemma {:induction false} KeepPartitions<T>(data: seq<T>, folds: seq<int>, testfold: int)
    requires |folds| <= |data|
    ensures multiset(Keep(data, folds, testfold, false)) + multiset(Keep(data, folds, testfold, true))
            == multiset(data[..|folds|])
  {
    if folds != [] {
      var n := |folds| - 1;
      KeepPartitions(data, folds[..n], testfold);
      var train, test := Keep(data, folds[..n], testfold, false), Keep(data, folds[..n], testfold, true);
      assert data[..|folds|] == data[..n] + [data[n]];
      assert multiset(data[..|folds|]) == multiset(data[..n]) + multiset{data[n]};
      if folds[n] == testfold {
        assert Keep(data, folds, testfold, false) == train;
        assert multiset(Keep(data, folds, testfold, true)) == multiset(test) + multiset{data[n]};
      } else {
        assert multiset(Keep(data, folds, testfold, false)) == multiset(train) + multiset{data[n]};
        assert Keep(data, folds, testfold, true) == test;
      }
    }
  }

  /** The two parts together hold one record per fold. */
  lemma KeepSizes<T>(data: seq<T>, folds: seq<int>, testfold: int)
    requires |folds| <= |data|
    ensures |Keep(data, folds, testfold, false)| + |Keep(data, folds, testfold, true)| == |folds|
  {
    KeepPartitions(data, folds, testfold);
    assert |multiset(Keep(data, folds, testfold, false)) + multiset(Keep(data, folds, testfold, true))|
           == |multiset(data[..|folds|])|;
  }

  /** For a batch with one fold per record, the two parts split the whole batch. */
  lemma SplitPartitions<T>(data: seq<T>, folds: seq<int>, testfold: int)
    requires |folds| == |data|
    ensures SplitOnMask(data, folds, testfold).Success?
    ensures var parts := SplitOnMask(data, folds, testfold).value;
      |parts.0| + |parts.1| == |data| && multiset(parts.0) + multiset(parts.1) == multiset(data)
  {
    KeepPartitions(data, folds, testfold);
    assert data[..|folds|] == data;
    var parts := SplitOnMask(data, folds, testfold).value;
    assert |multiset(parts.0) + multiset(parts.1)| == |multiset(data)|;
  }

  // ---------------------------------------------------------------------
  // File names
  // ---------------------------------------------------------------------

  function DigitChar(d: nat): (c: char)
    requires d < 10
    ensures '0' <= c <= '9' && (c as int) - ('0' as int) == d
  {
    "0123456789"[d]
  }

  predicate IsDigits(s: string)
  {
    forall i :: 0 <= i < |s| ==> '0' <= s[i] <= '9'
  }

  /** The decimal digits of `n`, without leading zeros. */
  function Digits(n: nat): (s: string)
    ensures |s| >= 1 && IsDigits(s)
  {
    if n < 10 then [DigitChar(n)] else Digits(n / 10) + [DigitChar(n % 10)]
  }

  /** `"{:05d}".format(n)`: the digits of `n`, left-padded with zeros to five characters. */
  function ZeroPad5(n: nat): (s: string)
    ensures IsDigits(s) && |s| >= 5
  {
    var d := Digits(n);
    if |d| < 5 then seq(5 - |d|, _ => '0') + d else d
  }

  /** The number a string of decimal digits denotes. */
  function ParseDecimal(s: string): nat
    requires IsDigits(s)
  {
    if s == [] then 0 else ParseDecimal(s[..|s| - 1]) * 10 + ((s[|s| - 1] as int) - ('0' as int))
  }

  lemma {:induction false} ParseDigits(n: nat)
    ensures ParseDecimal(Digits(n)) == n
  {
    if n >= 10 {
      ParseDigits(n / 10);
      assert (Digits(n / 10) + [DigitChar(n % 10)])[..|Digits(n / 10)|] == Digits(n / 10);
    }
  }

  lemma {:induction false} ParseLeadingZero(s: string)
    requires IsDigits(s)
    ensures ParseDecimal(['0'] + s) == ParseDecimal(s)
  {
    if s != [] {
      var n := |s| - 1;
      ParseLeadingZero(s[..n]);
      assert (['0'] + s)[..n + 1] == ['0'] + s[..n];
    }
  }

  lemma {:induction false} ParseLeadingZeros(k: nat, s: string)
    requires IsDigits(s)
    ensures ParseDecimal(seq(k, _ => '0') + s) == ParseDecimal(s)
  {
    if k > 0 {
      var zeros := seq(k - 1, _ => '0');
      ParseLeadingZeros(k - 1, s);
      assert seq(k, _ => '0') == ['0'] + zeros;
      assert seq(k, _ => '0') + s == ['0'] + (zeros + s);
      ParseLeadingZero(zeros + s);
    } else {
      assert seq(k, _ => '0') + s == s;
    }
  }

  lemma {:induction false} DigitsLength(n: nat)
    ensures n < 100000 ==> |Digits(n)| <= 5
    ensures n < 10000 ==> |Digits(n)| <= 4
    ensures n < 1000 ==> |Digits(n)| <= 3
    ensures n < 100 ==> |Digits(n)| <= 2
  {
    if n >= 10 { DigitsLength(n / 10); }
  }

  /**
   * The zero-padded index reads back as the index, and indices below 100000
   * take exactly five characters.
   */
  lemma ZeroPad5RoundTrip(n: nat)
    ensures ParseDecimal(ZeroPad5(n)) == n
    ensures n < 100000 ==> |ZeroPad5(n)| == 5
  {
    ParseDigits(n);
    DigitsLength(n);
    var d := Digits(n);
    if |d| < 5 {
      ParseLeadingZeros(5 - |d|, d);
    }
  }

  /**
   * `"{}.{:05d}.tfrecord".format(tag, index)`: the tag, a dot, the
   * zero-padded index, which reads back as the index, and the extension.
   */
  function FileName(tag: string, index: nat): (name: string)
    ensures |name| == |tag| + |ZeroPad5(index)| + 10
    ensures name[..|tag|] == tag && name[|tag|] == '.'
    ensures var digits := name[|tag| + 1..|name| - 9];
      IsDigits(digits) && ParseDecimal(digits) == index && (index < 100000 ==> |digits| == 5)
    ensures name[|name| - 9..] == ".tfrecord"
  {
    var name := tag + "." + ZeroPad5(index) + ".tfrecord";
    assert name[|tag| + 1..|name| - 9] == ZeroPad5(index);
    ZeroPad5RoundTrip(index);
    name
  }

  /**
   * `os.path.join(directory, name)`: an absolute name replaces the
   * directory; otherwise the name follows the directory, after a separator
   * unless the directory is empty or already ends in one.
   */
  function Join(directory: string, name: string): (r: string)
    ensures |r| >= |name| && r[|r| - |name|..] == name
    ensures |name| > 0 && name[0] == '/' ==> r == name
    ensures !(|name| > 0 && name[0] == '/') ==> |r| >= |directory| && r[..|directory|] == directory
    ensures !(|name| > 0 && name[0] == '/') ==>
      |r| == |directory| + |name| + (if directory == [] || directory[|directory| - 1] == '/' then 0 else 1)
    ensures !(|name| > 0 && name[0] == '/') && directory != [] && directory[|directory| - 1] != '/' ==>
      r[|directory|] == '/'
  {
    if |name| > 0 && name[0] == '/' then name
    else if directory == [] || directory[|directory| - 1] == '/' then directory + name
    else directory + "/" + name
  }

  function PathFor(directory: string, tag: string, index: nat): string
  {
    Join(directory, FileName(tag, index))
  }

  lemma FileNameInjective(tag: string, a: nat, b: nat)
    ensures FileName(tag, a) == FileName(tag, b) ==> a == b
  {
    ZeroPad5RoundTrip(a);
    ZeroPad5RoundTrip(b);
    var pa, pb := ZeroPad5(a), ZeroPad5(b);
    var na, nb := FileName(tag, a), FileName(tag, b);
    var lo := |tag| + 1;
    assert na[lo..lo + |pa|] == pa;
    assert nb[lo..lo + |pb|] == pb;
  }

  lemma JoinInjective(directory: string, x: string, y: string)
    requires |x| > 0 && |y| > 0 && x[0] == y[0]
    ensures Join(directory, x) == Join(directory, y) ==> x == y
  {
    var d := directory;
    if x[0] != '/' {
      if d == [] || d[|d| - 1] == '/' {
        assert Join(d, x)[|d|..] == x && Join(d, y)[|d|..] == y;
      } else {
        assert Join(d, x)[|d| + 1..] == x && Join(d, y)[|d| + 1..] == y;
      }
    }
  }

  /** Distinct file indices give distinct names and paths: rolling over never reopens an earlier file. */
  lemma FileNamesDistinct(directory: string, tag: string, a: nat, b: nat)
    requires a != b
    ensures FileName(tag, a) != FileName(tag, b)
    ensures PathFor(directory, tag, a) != PathFor(directory, tag, b)
  {
    FileNameInjective(tag, a, b);
    var na, nb := FileName(tag, a), FileName(tag, b);
    if |tag| > 0 {
      assert na[0] == tag[0] == nb[0];
    } else {
      assert na[0] == '.' == nb[0];
    }
    JoinInjective(directory, na, nb);
  }

  // ---------------------------------------------------------------------
  // _MultiFileWriter
  // ---------------------------------------------------------------------

  /**
   * The file `os.path.join(directory, "{tag}.{index:05d}.tfrecord")`, kept by
   * its parts; `Path` spells it out.
   */
  datatype FileRef = FileRef(directory: string, tag: string, index: nat)
  {
    function Path(): string
    {
      PathFor(directory, tag, index)
    }
  }

  /** Two files of one writer (same directory and tag) are distinct paths unless they are the same file. */
  lemma FileRefsDistinct(a: FileRef, b: FileRef)
    requires a.directory == b.directory && a.tag == b.tag && a != b
    ensures a.Path() != b.Path()
  {
    FileNamesDistinct(a.directory, a.tag, a.index, b.index);
  }

  /** An open or closed record writer on one file. */
  datatype Handle = Handle(file: FileRef, closed: bool)

  class MultiFileWriter {
    const outputDirectory: string
    const tag: string
    var fileIndex: int
    /** The file currently written to. */
    var path: FileRef
    var handle: Option<Handle>
    var linesWritten: int
    /** The records written to each file opened so far, by file index. */
    var files: seq<seq<Record>>

    ghost predicate Valid()
      reads this
    {
      && fileIndex >= 0
      && path == FileRef(outputDirectory, tag, fileIndex)
      && |files| == fileIndex + 1
      && (handle.Some? ==> handle.value.file == path)
      && linesWritten == |Flatten(files)|
    }

    /** All records written so far, across the files in index order. */
    function Written(): seq<Record>
      reads this
    {
      Flatten(files)
    }

    constructor (outputDirectory: string, tag: string)
      ensures Valid()
      ensures this.outputDirectory == outputDirectory && this.tag == tag
      ensures fileIndex == 0 && linesWritten == 0 && files == [[]]
      ensures path == FileRef(outputDirectory, tag, 0)
      ensures handle == Some(Handle(path, false))
    {
      this.outputDirectory := outputDirectory;
      this.tag := tag;
      fileIndex := -1;
      handle := None;
      files := [];
      new;
      NextFile();
      linesWritten := 0;
      FlattenAppend<Record>([], []);
    }

    /** `_nextfile`: closes the current file and opens the next one. */
    method NextFile()
      requires fileIndex >= -1 && |files| == fileIndex + 1
      modifies this
      ensures fileIndex == old(fileIndex) + 1
      ensures path == FileRef(outputDirectory, tag, fileIndex)
      ensures handle == Some(Handle(path, false))
      ensures files == old(files) + [[]]
      ensures linesWritten == old(linesWritten)
    {
      if handle.Some? {
        handle := Some(handle.value.(closed := true));
      }
      fileIndex := fileIndex + 1;
      path := FileRef(outputDirectory, tag, fileIndex);
      handle := Some(Handle(path, false));
      files := files + [[]];
    }

    /** The loop in `add` writing each record of the batch to the current file. */
    method WriteRecords(batch: seq<Record>)
      requires Valid()
      modifies this
      ensures Valid()
      ensures fileIndex == old(fileIndex) && path == old(path) && handle == old(handle)
      ensures files == old(files)[..fileIndex] + [old(files)[fileIndex] + batch]
      ensures linesWritten == old(linesWritten) + |batch|
      ensures Written() == old(Written()) + batch
    {
      ghost var earlier := files[..fileIndex];
      ghost var current := files[fileIndex];
      assert files == earlier + [current];
      assert current + batch[..0] == current;
      for i := 0 to |batch|
        invariant fileIndex == old(fileIndex) == |earlier| && path == old(path) && handle == old(handle)
        invariant files == earlier + [current + batch[..i]]
        invariant linesWritten == old(linesWritten) + i
      {
        assert current + batch[..i + 1] == (current + batch[..i]) + [batch[i]];
        files := files[fileIndex := files[fileIndex] + [batch[i]]];
        assert files == earlier + [current + batch[..i + 1]];
        linesWritten := linesWritten + 1;
      }
      assert batch[..|batch|] == batch;
      FlattenAppend(earlier, current + batch);
      FlattenAppend(earlier, current);
    }

    /**
     * `add`: starts the next file first if the current one is over
     * `FILESIZE_MB` whole megabytes, then appends the batch to the current
     * file. `sizeOf` gives the size in bytes of a file holding the given
     * records. Without a handle it raises RuntimeError.
     */
    method Add(batch: seq<Record>, sizeOf: seq<Record> -> nat) returns (r: Outcome<Exception>)
      requires Valid()
      requires handle.Some? ==> !handle.value.closed
      modifies this
      ensures Valid()
      ensures old(handle).None? ==>
        (r == Fail(RuntimeError) && files == old(files) && fileIndex == old(fileIndex)
         && linesWritten == old(linesWritten) && handle == old(handle))
      ensures old(handle).Some? ==> r == Pass && handle.Some? && !handle.value.closed
      ensures old(handle).Some? ==> linesWritten == old(linesWritten) + |batch|
      ensures old(handle).Some? ==> Written() == old(Written()) + batch
      ensures old(handle).Some? ==>
        var rolled := sizeOf(old(files)[old(fileIndex)]) / BYTES_PER_MB > FILESIZE_MB;
        && fileIndex == old(fileIndex) + (if rolled then 1 else 0)
        && (rolled ==> files == old(files) + [batch])
        && (!rolled ==> files == old(files)[..old(fileIndex)] + [old(files)[old(fileIndex)] + batch])
    {
      if handle.None? {
        r := Fail(RuntimeError);
        return;
      }
      var filesize := sizeOf(files[fileIndex]) / BYTES_PER_MB;
      if filesize > FILESIZE_MB {
        NextFile();
        FlattenAppend(old(files), []);
      }
      ghost var before := files;
      WriteRecords(batch);
      if filesize > FILESIZE_MB {
        assert before[..fileIndex] == old(files) && before[fileIndex] + batch == batch;
      }
      r := Pass;
    }

    /** `close`: closes the current file; without a handle it raises RuntimeError. */
    method Close() returns (r: Outcome<Exception>)
      requires Valid()
      modifies this
      ensures Valid()
      ensures old(handle).None? ==> r == Fail(RuntimeError) && handle == old(handle)
      ensures old(handle).Some? ==> r == Pass && handle == Some(old(handle).value.(closed := true))
      ensures files == old(files) && fileIndex == old(fileIndex) && path == old(path)
      ensures linesWritten == old(linesWritten)
    {
      if handle.Some? {
        handle := Some(handle.value.(closed := true));
        r := Pass;
      } else {
        r := Fail(RuntimeError);
      }
    }
  }

  // ---------------------------------------------------------------------
  // query and training
  // ---------------------------------------------------------------------

  /** `query`: every batch, in order, through one writer, which is then closed. */
  method Query(data: seq<seq<Record>>, outputDirectory: string, tag: string, sizeOf: seq<Record> -> nat)
    returns (writer: MultiFileWriter)
    ensures fresh(writer) && writer.Valid()
    ensures writer.Written() == Flatten(data)
    ensures writer.handle.Some? && writer.handle.value.closed
  {
    writer := new MultiFileWriter(outputDirectory, tag);
    FlattenAppend<Record>([], []);
    for i := 0 to |data|
      invariant writer.Valid() && writer.handle.Some? && !writer.handle.value.closed
      invariant writer.Written() == Flatten(data[..i])
    {
      var _ := writer.Add(data[i], sizeOf);
      FlattenAppend(data[..i], data[i]);
      assert data[..i + 1] == data[..i] + [data[i]];
    }
    assert data[..|data|] == data;
    var _ := writer.Close();
  }

  /** The training (or testing) part of each of the first `n` batches, concatenated. */
  function Routed(data: seq<seq<Record>>, folds: seq<seq<int>>, testfold: int, test: bool, n: nat): seq<Record>
    requires n <= |data| && n <= |folds|
    requires forall i :: 0 <= i < n ==> |folds[i]| <= |data[i]|
  {
    if n == 0 then []
    else Routed(data, folds, testfold, test, n - 1) + Keep(data[n - 1], folds[n - 1], testfold, test)
  }

  /** The number of folds (labelled records) in the first `n` batches. */
  function Labelled(folds: seq<seq<int>>, n: nat): nat
    requires n <= |folds|
  {
    if n == 0 then 0 else Labelled(folds, n - 1) + |folds[n - 1]|
  }

  /** Batch `i` is the first one with more folds than records. */
  predicate FirstBad(data: seq<seq<Record>>, folds: seq<seq<int>>, i: nat)
  {
    && i < |data| && i < |folds|
    && |folds[i]| > |data[i]|
    && forall k :: 0 <= k < i ==> |folds[k]| <= |data[k]|
  }

  /**
   * The state `training` stops in when a batch raises: the writers hold the
   * routed records of the batches before the first bad one, and nothing of
   * the bad one.
   */
  ghost predicate FailsAt(data: seq<seq<Record>>, folds: seq<seq<int>>, testfold: int, train: seq<Record>, test: seq<Record>)
  {
    exists i: nat {:trigger FirstBad(data, folds, i)} :: FirstBad(data, folds, i)
      && train == Routed(data, folds, testfold, false, i)
      && test == Routed(data, folds, testfold, true, i)
  }

  /**
   * One step of the loop of `training`: the batch is split by fold; its
   * training part is added to `train` and its testing part to `test`. A
   * batch with more folds than records raises IndexError before anything is
   * written.
   */
  method RouteBatch(batch: seq<Record>, batchFolds: seq<int>, testfold: int,
                    train: MultiFileWriter, test: MultiFileWriter, sizeOf: seq<Record> -> nat)
    returns (r: Outcome<Exception>)
    requires train != test
    requires train.Valid() && train.handle.Some? && !train.handle.value.closed
    requires test.Valid() && test.handle.Some? && !test.handle.value.closed
    modifies train, test
    ensures train.Valid() && train.handle.Some? && !train.handle.value.closed
    ensures test.Valid() && test.handle.Some? && !test.handle.value.closed
    ensures r.Pass? <==> |batchFolds| <= |batch|
    ensures r.Pass? ==> train.Written() == old(train.Written()) + Keep(batch, batchFolds, testfold, false)
    ensures r.Pass? ==> test.Written() == old(test.Written()) + Keep(batch, batchFolds, testfold, true)
    ensures r.Pass? ==> |Keep(batch, batchFolds, testfold, false)| + |Keep(batch, batchFolds, testfold, true)| == |batchFolds|
    ensures r.Fail? ==> r.error == IndexError
    ensures r.Fail? ==> train.Written() == old(train.Written()) && test.Written() == old(test.Written())
  {
    var split := SplitOnMask(batch, batchFolds, testfold);
    if split.Failure? {
      return Fail(split.error);
    }
    KeepSizes(batch, batchFolds, testfold);
    var (trainBatch, testBatch) := split.value;
    var _ := train.Add(trainBatch, sizeOf);
    var _ := test.Add(testBatch, sizeOf);
    r := Pass;
  }

  /** The loop of `training`: every batch in turn, until a batch raises. */
  method RouteBatches(data: seq<seq<Record>>, folds: seq<seq<int>>, testfold: int,
                      train: MultiFileWriter, test: MultiFileWriter, sizeOf: seq<Record> -> nat)
    returns (r: Outcome<Exception>)
    requires train != test
    requires train.Valid() && train.handle.Some? && !train.handle.value.closed && train.Written() == []
    requires test.Valid() && test.handle.Some? && !test.handle.value.closed && test.Written() == []
    modifies train, test
    ensures train.Valid() && train.handle.Some? && !train.handle.value.closed
    ensures test.Valid() && test.handle.Some? && !test.handle.value.closed
    ensures r.Pass? <==> forall i :: 0 <= i < Min(|data|, |folds|) ==> |folds[i]| <= |data[i]|
    ensures r.Pass? ==> train.Written() == Routed(data, folds, testfold, false, Min(|data|, |folds|))
    ensures r.Pass? ==> test.Written() == Routed(data, folds, testfold, true, Min(|data|, |folds|))
    ensures r.Pass? ==> |train.Written()| + |test.Written()| == Labelled(folds, Min(|data|, |folds|))
    ensures r.Fail? ==> r.error == IndexError && FailsAt(data, folds, testfold, train.Written(), test.Written())
  {
    var n := Min(|data|, |folds|);
    for i := 0 to n
      invariant train.Valid() && train.handle.Some? && !train.handle.value.closed
      invariant test.Valid() && test.handle.Some? && !test.handle.value.closed
      invariant forall k :: 0 <= k < i ==> |folds[k]| <= |data[k]|
      invariant train.Written() == Routed(data, folds, testfold, false, i)
      invariant test.Written() == Routed(data, folds, testfold, true, i)
      invariant |train.Written()| + |test.Written()| == Labelled(folds, i)
    {
      r := RouteBatch(data[i], folds[i], testfold, train, test, sizeOf);
      if r.Fail? {
        assert FirstBad(data, folds, i);
        return;
      }
      assert forall k :: 0 <= k < i + 1 ==> |folds[k]| <= |data[k]|;
    }
    r := Pass;
  }

  /**
   * `training`: routes the batches to a `train` writer in the output
   * directory and a `test` writer under its `testing` subdirectory, then
   * closes both.
   */
  method Training(data: seq<seq<Record>>, folds: seq<seq<int>>, outputDirectory: string, testfold: int,
                  sizeOf: seq<Record> -> nat)
    returns (train: MultiFileWriter, test: MultiFileWriter, r: Outcome<Exception>)
    ensures fresh(train) && fresh(test) && train != test
    ensures train.tag == "train" && test.tag == "test"
    ensures train.outputDirectory == outputDirectory && test.outputDirectory == Join(outputDirectory, "testing")
    ensures r.Pass? <==> forall i :: 0 <= i < Min(|data|, |folds|) ==> |folds[i]| <= |data[i]|
    ensures r.Pass? ==> train.Written() == Routed(data, folds, testfold, false, Min(|data|, |folds|))
    ensures r.Pass? ==> test.Written() == Routed(data, folds, testfold, true, Min(|data|, |folds|))
    ensures r.Pass? ==> train.linesWritten + test.linesWritten == Labelled(folds, Min(|data|, |folds|))
    ensures r.Pass? ==> train.handle.Some? && train.handle.value.closed
    ensures r.Pass? ==> test.handle.Some? && test.handle.value.closed
    ensures r.Fail? ==> r.error == IndexError && FailsAt(data, folds, testfold, train.Written(), test.Written())
  {
    train := new MultiFileWriter(outputDirectory, "train");
    test := new MultiFileWriter(Join(outputDirectory, "testing"), "test");
    FlattenAppend<Record>([], []);
    r := RouteBatches(data, folds, testfold, train, test, sizeOf);
    if r.Pass? {
      var _ := train.Close();
      var _ := test.Close();
    }
  }
}
