# landshark core, modelled in Dafny

landshark is a toolkit for supervised learning on large geospatial rasters. Its
data pipeline does four things:

- It reads, for every training or query point, a square patch of pixels around
  the point from the feature arrays. The result is a masked patch array.
- It assigns each training point a cross-validation fold.
- It splits each batch of serialised records into training and testing records
  by fold.
- It writes the records to a series of numbered files, starting a new file when
  the current one grows past 100 MB.

This project models the integer and index logic of that pipeline and proves
what it promises.

The modules follow the repository's files:

- `Py` (py.dfy) — Python/numpy semantics used below: `Option`, `Result`, raised exceptions, slicing with negative and out-of-range bounds, `range`, negative indexing, `round`.
- `Seqs` (seqs.dfy) — concatenation of batches; `sorted(set(...))` / `np.unique`.
- `Random` (random.dfy) — numpy's `RandomState` as a seeded stream of draws and a cursor.
- `BaseTypes` (landshark/basetypes.py) — `FixedSlice`, `IdReader`, `IdWorker`, the open/closed `ArraySource`.
- `Util` (landshark/util.py) — `to_masked`, the patch size and the batch-size helpers.
- `PatchModel` (landshark/model.py) — `patch_slices`.
- `KFold` (landshark/kfold.py) — `KFolder` and `BlockedKFolder` as classes over their counts, generator and block grid.
- `TfWrite` (landshark/tfwrite.py) — `_split_on_mask`, the `_MultiFileWriter` class, `query` and the routing loop of `training`.
- `PatchRead` (landshark/dataprocess.py) — `_direct_read` and `_cached_read`: arrays filled in place by loops over the read and mask ops.
- `RowCache` (landshark/dataprocess.py) — `_as_range`, `_slices_from_patches` and `_get_rows`, plus the proof that the cached read equals the direct read.
- `DataProcess` (landshark/dataprocess.py) — `_islice_batched`, and the read parts of `_process_training` and `_process_query`.

## Conventions

- **Patch arrays.** A patch array of shape (npatches, pw, pw, nfeatures) is held
  flat over its cells in C order. Cell `(i, y, x)` sits at `(i*pw + y)*pw + x`,
  and each cell is the vector of its `nfeatures` values.
- **Values.** Values are of a generic type with a caller-supplied zero, so no
  floating point arithmetic is needed.
- **Python `assert`s.** They become `requires`:
  - `npatches > 0` and `patchwidth > 0` in the readers;
  - `K > 1` in `KFolder`.
- **Raised exceptions.** They are modelled as `Result`/`Outcome` values:
  - an out-of-range index raises `IndexError`;
  - a missing dictionary key raises `KeyError`;
  - use of a writer or source in the wrong state raises `RuntimeError`;
  - division by a zero size raises `ZeroDivisionError`;
  - numpy refusing a negative array dimension raises `ValueError`.
- **Random numbers.** The random generator is a fixed stream of raw draws.
  `randint(lo, hi)` consumes one draw and maps it into `[lo, hi)`. The
  redraw-until-allowed loop of the blocked folder ends only if the stream is
  *fair*: every residue recurs after any point. Its termination is proved under
  that assumption, which is stated as a precondition.
- **File sizes.** A file's size on disk is an oracle `sizeOf`, applied to the
  records written to that file.

## Model

| member | source | states |
|---|---|---|
| `Seqs.SortedDistinct` | landshark/dataprocess.py:135 | the distinct values of the input, strictly increasing, with exactly the input's elements |
| `Py.FloorDiv` | landshark/kfold.py:81 | Python's `//`: the quotient rounded toward negative infinity, for a divisor of either sign |
| `Random.RandomState.constructor` | landshark/kfold.py:28 | a fresh generator on the seed's stream has consumed no draws |
| `Random.RandomState.RandInt` | landshark/kfold.py:75 | returns the next draw of the stream, mapped into `[lo, hi)`, and consumes exactly one draw |
| `Random.RandomState.RandInts` | landshark/kfold.py:34 | returns `size` successive draws in `[lo, hi)` and advances the cursor by `size` |
| `BaseTypes.IdReader` | landshark/basetypes.py:74-76 | returns its index unchanged |
| `BaseTypes.IdWorker` | landshark/basetypes.py:79-81 | returns its input unchanged |
| `BaseTypes.ArraySource.constructor` | landshark/basetypes.py:87-95 | a fresh source is closed, has shape (0, 0), native 0, no missing value and no columns |
| `BaseTypes.ArraySource.ArraySlice` | landshark/hread.py:60-66 | `_arrayslice` as the array-backed sources implement it: an in-range `[start, stop)` gives exactly those rows |
| `BaseTypes.ArraySource.Call` | landshark/basetypes.py:158-171 | a closed source raises RuntimeError; an open one returns `_arrayslice(start, stop)`, which has `stop - start` rows when in range |
| `BaseTypes.ArraySource.Enter` | landshark/basetypes.py:173-179 | sets the open flag and changes no other field |
| `BaseTypes.ArraySource.Exit` | landshark/basetypes.py:181-188 | clears the open flag and changes no other field |
| `BaseTypes.ArraySource.Len` | landshark/basetypes.py:194-196 | is `shape[0]`; an empty shape raises IndexError |
| `BaseTypes.ArraySource.ScopedRead` | landshark/basetypes.py:158-188 | a read inside `with source:` always succeeds with the slice of the rows, and leaves the source closed with its shape, native size, missing value, columns and rows unchanged |
| `Util.ToMasked` | landshark/util.py:27-36 | the data is returned unchanged; an element is masked exactly when a missing value is given and the element equals it; no element is masked when none is given |
| `Util.PatchSize` | landshark/util.py:46 | `(2*halfwidth + 1)^2` is odd and at least one |
| `Util.MbToPoints` | landshark/util.py:39-54 | fails (ZeroDivisionError) exactly when a point takes zero bytes; otherwise at least one, and within one half of `max(1, batchMB / MB per point)` |
| `Util.MbToRows` | landshark/util.py:57-72 | fails exactly when a point takes zero bytes or the row width is zero; otherwise at least one, and within one half of `max(1, points / row width)` |
| `PatchModel.PatchSlices` | landshark/model.py:223-229 | there are exactly `max(0, nfeatures_cat)` slices, and slice k is `[k*npatch, (k+1)*npatch)` |
| `PatchModel.PatchSlicesTile` | landshark/model.py:225-228 | the slices tile `[0, npatch*nfeatures_cat)`: the first starts at 0, each stops where the next starts, the last stops at the end, each is one patch long |
| `KFold.ZeroCounts` | landshark/kfold.py:29 | the initial counts have keys exactly 1..K, all zero |
| `KFold.LabelsAreCounted` | landshark/kfold.py:40-42 | labels drawn from 1..K are counted exactly once by the per-label counts |
| `KFold.SumCountsAdd` | landshark/kfold.py:41-42 | adding per-label counts to the table adds their sum to its total |
| `KFold.KFolder.constructor` | landshark/kfold.py:25-29 | requires K > 1; counts start at zero for labels 1..K; the total is 0; the generator is fresh |
| `KFold.KFolder.GenerateFolds` | landshark/kfold.py:31-35 | one label per input row, each in 1..K, the next draws of the generator; one draw consumed per row |
| `KFold.KFolder.RecordCounts` | landshark/kfold.py:40-42 | `counts[k]` grows by the number of returned labels equal to k, no key is added or removed, and the total grows by the batch length |
| `KFold.KFolder.Call` | landshark/kfold.py:37-43 | draws one label in 1..K per row and adds them to the counts; the total grows by the batch length |
| `KFold.CeilDiv` | landshark/kfold.py:63-64 | `int(np.ceil(a / b))` for a divisor of either sign: for a positive block size, the least number of blocks that cover the image side |
| `KFold.NegativeBlockSize` | landshark/kfold.py:63-65 | a negative block size gives a grid side of at most 0, and exactly 0 when the image side is shorter than the block size's magnitude |
| `KFold.AllowedLabelExists` | landshark/kfold.py:68-75 | for K > 1 there is always a label in 1..K outside the excluded set, so the retry loop has something to find |
| `KFold.DrawAllowed` | landshark/kfold.py:73-75 | the retry loop ends on a fair stream, with a label in 1..K outside the excluded set |
| `KFold.GenRandBlkFoldsArray` | landshark/kfold.py:62-77 | the grid has the requested rows and columns; every block label is in 1..K and differs from the block above and the block to the left |
| `KFold.NewBlockedKFolder` | landshark/kfold.py:49-65 | a zero block size raises ZeroDivisionError, and a block size that gives a negative grid side raises ValueError. Otherwise it returns a fresh valid folder on that shape and block size, with counts at zero |
| `KFold.BlockedKFolder.constructor` | landshark/kfold.py:49-60 | for a block size that gives a grid, the grid is `ceil(rows/bs)` by `ceil(cols/bs)` blocks and satisfies the neighbour rule; the counts start at zero |
| `KFold.BlockedKFolder.FoldOf` | landshark/kfold.py:81-82 | the label of a point's block, with numpy indexing: in 1..K, or IndexError outside the grid |
| `KFold.BlockedKFolder.GenerateFolds` | landshark/kfold.py:79-83 | succeeds exactly when every point's block exists; gives each point its block's label in 1..K, so two points in one block get one label |
| `KFold.BlockedKFolder.Call` | landshark/kfold.py:37-43 | the blocked labels are returned and counted; no draw is consumed; on an error the counts are unchanged |
| `TfWrite.MaskIndices` | landshark/tfwrite.py:87 | exactly the positions where the mask holds, in increasing order |
| `TfWrite.FoldMask` | landshark/tfwrite.py:85-86 | one flag per fold |
| `TfWrite.Gather` | landshark/tfwrite.py:87-88 | one record per index |
| `TfWrite.GatherKeep` | landshark/tfwrite.py:87-88 | gathering the masked positions equals the in-order filter of records by fold |
| `TfWrite.SplitOnMask` | landshark/tfwrite.py:83-89 | raises IndexError exactly when there are more folds than records. Otherwise the training records are exactly those whose fold is not the test fold, and the testing records exactly those whose fold is, each in original order |
| `TfWrite.KeepPartitions` | landshark/tfwrite.py:85-88 | together, the two parts hold each labelled record exactly once (multiset equality) |
| `TfWrite.KeepSizes` | landshark/tfwrite.py:85-88 | the two parts hold one record per fold between them |
| `TfWrite.SplitPartitions` | landshark/tfwrite.py:85-88 | with one fold per record the split succeeds, and `|train| + |test| = |data|` with the same multiset of records |
| `TfWrite.ZeroPad5RoundTrip` | landshark/tfwrite.py:61 | the five-digit zero-padded index reads back as the index; indices below 100000 take five characters |
| `TfWrite.FileName` | landshark/tfwrite.py:61 | the name is the tag, a dot, the zero-padded index and `.tfrecord`; the digits read back as the index, and are five for indices below 100000 |
| `TfWrite.Join` | landshark/tfwrite.py:59-61 | `os.path.join`: an absolute name replaces the directory. Otherwise the result starts with the directory and ends with the name, with one separator between them unless the directory is empty or already ends in one |
| `TfWrite.FileNameInjective` | landshark/tfwrite.py:59-61 | `tag.NNNNN.tfrecord` names determine their index |
| `TfWrite.JoinInjective` | landshark/tfwrite.py:59-61 | joining two names that start alike onto one directory keeps them apart |
| `TfWrite.FileNamesDistinct` | landshark/tfwrite.py:58-61 | distinct file indices give distinct file names and paths |
| `TfWrite.FileRefsDistinct` | landshark/tfwrite.py:58-61 | two different files of one writer have different paths, so rolling over never reopens an earlier file |
| `TfWrite.MultiFileWriter.constructor` | landshark/tfwrite.py:45-53 | file index 0, no lines written, path `<dir>/<tag>.00000.tfrecord`, an open handle on it |
| `TfWrite.MultiFileWriter.NextFile` | landshark/tfwrite.py:55-62 | the index grows by one, the path names the new index, a new open handle is set, and a new empty file is started |
| `TfWrite.MultiFileWriter.WriteRecords` | landshark/tfwrite.py:69-71 | the batch is appended to the current file, `lines_written` grows by its length, and nothing else changes |
| `TfWrite.MultiFileWriter.Add` | landshark/tfwrite.py:64-74 | with no handle it raises RuntimeError and changes nothing. Otherwise it rolls over at most once, exactly when the current file is over `FILESIZE_MB` whole MB, and before writing. The batch is appended to what was written, and `lines_written` grows by its length |
| `TfWrite.MultiFileWriter.Close` | landshark/tfwrite.py:76-80 | closes the handle, or raises RuntimeError without one; files, index, path and line count are unchanged |
| `TfWrite.Query` | landshark/tfwrite.py:15-20 | everything written is the concatenation of the batches in order, and the writer ends closed |
| `TfWrite.RouteBatch` | landshark/tfwrite.py:31-34 | the batch's training part is appended to the train writer and its testing part to the test writer. It raises IndexError exactly when there are more folds than records, and then both writers are unchanged |
| `TfWrite.RouteBatches` | landshark/tfwrite.py:31-34 | succeeds exactly when no batch has more folds than records. The train writer then holds the training parts of the batches in order, the test writer the testing parts, and together they hold one record per fold. On an error, raised by the first batch with more folds than records, the writers hold the parts of the batches before it |
| `TfWrite.Training` | landshark/tfwrite.py:23-36 | a `train` writer in the output directory and a `test` writer in its `testing` subdirectory receive the routed records, and both end closed. On an error the writers hold the parts of the batches before the first bad one |
| `PatchRead.Fetch` | landshark/dataprocess.py:113-114 | `row_dict[y][x]`, or `array[y, x]` as `_direct_read` reads it: an existing pixel gives its feature vector. The cache raises KeyError exactly when the row is not a key; every other error is IndexError |
| `PatchRead.Cell` | landshark/dataprocess.py:85 | indexing `[idx, yp, xp]` succeeds exactly when each index is in numpy's range (negative from the end), and names a cell of the array |
| `PatchRead.Fill` | landshark/dataprocess.py:80-82 | `np.zeros`/`zeros_like`: every cell holds `nfeatures` copies of the fill value |
| `PatchRead.ApplyReads` | landshark/dataprocess.py:84-85 | applying the read ops keeps the number of cells; an error is IndexError, or KeyError from the cache |
| `PatchRead.ApplyMasks` | landshark/dataprocess.py:87-88 | applying the mask ops keeps the number of cells, and leaves each cell either as it was or fully masked; an error is IndexError |
| `PatchRead.Assemble` | landshark/dataprocess.py:76-91 | the data and the mask each have `npatches*pw*pw` cells, and each mask cell has `nfeatures` flags; an error is IndexError, or KeyError from the cache |
| `PatchRead.ApplyReadOps` | landshark/dataprocess.py:84-85 | the loop over the read ops leaves the array equal to applying the ops in list order, or stops with the first op's error |
| `PatchRead.ApplyMaskOps` | landshark/dataprocess.py:87-88 | the loop over the mask ops leaves the mask equal to applying the ops in list order, or stops with the first op's error |
| `PatchRead.MaskMissing` | landshark/dataprocess.py:90-91 | in place, the mask becomes itself OR "element equals the missing value" |
| `PatchRead.Read` | landshark/dataprocess.py:76-93 | requires `npatches > 0` and `patchwidth > 0`; returns the assembled masked patches for the source |
| `PatchRead.DirectRead` | landshark/dataprocess.py:69-94 | `_direct_read` returns the patches assembled from the array itself |
| `PatchRead.CachedRead` | landshark/dataprocess.py:97-123 | `_cached_read` returns the patches assembled from the row dictionary |
| `PatchRead.LastWriter` | landshark/dataprocess.py:84-85 | the last read op whose destination is the given cell, or none when no op targets it |
| `PatchRead.MaskedByOpExists` | landshark/dataprocess.py:87-88 | a cell is mask-op-masked exactly when some mask op names it |
| `PatchRead.ApplyReadsSpec` | landshark/dataprocess.py:84-85 | the reads succeed exactly when every op's source pixel exists and its cell is in range. Each cell then holds the value of the last op targeting it, or its initial value |
| `PatchRead.ApplyMasksSpec` | landshark/dataprocess.py:87-88 | the masks succeed exactly when every op's cell is in range; a cell is all-true exactly when some op names it, and otherwise keeps its initial flags |
| `PatchRead.AssembleSucceedsIff` | landshark/dataprocess.py:76-91 | a reader succeeds exactly when every read op's source pixel exists and every read and mask op names a cell of the array |
| `PatchRead.AssembleData` | landshark/dataprocess.py:80-85 | the data has `npatches*pw*pw` cells of `nfeatures` values. A cell holds the value of the last read op targeting it, or zeros when no op targets it |
| `PatchRead.FetchShaped` | landshark/dataprocess.py:85 | every pixel fetched from a well-shaped source has `nfeatures` values |
| `PatchRead.AssembleMask` | landshark/dataprocess.py:87-91 | the mask has the data's shape. An element is masked exactly when a mask op names its cell, or when a missing value is declared and the element equals it |
| `RowCache.ConsecutiveValues` | landshark/dataprocess.py:139-143 | in a run of consecutive rows, element i is the first plus i |
| `RowCache.AsRange` | landshark/dataprocess.py:126-131 | a group becomes `[first, last + 1)`, the one-element group included |
| `RowCache.AsRangeCovers` | landshark/dataprocess.py:126-131 | for a run of consecutive rows, `[first, last + 1)` holds exactly the rows of the run |
| `RowCache.Runs` | landshark/dataprocess.py:137-143 | the grouping is empty exactly when the sorted rows are |
| `RowCache.RunsNonEmpty` | landshark/dataprocess.py:143 | every group is non-empty, and the last group ends with the last row |
| `RowCache.RunsFlatten` | landshark/dataprocess.py:137-143 | the groups concatenate back to the sorted rows |
| `RowCache.RunsConsecutive` | landshark/dataprocess.py:137-143 | every group is a run of consecutive integers |
| `RowCache.RunsBreaks` | landshark/dataprocess.py:137-143 | adjacent groups are split exactly where consecutiveness breaks (the groups are maximal) |
| `RowCache.RunsGaps` | landshark/dataprocess.py:135-143 | on sorted distinct rows, each group ends more than one row below the start of the next |
| `RowCache.RowsRead` | landshark/dataprocess.py:135 | the source row of each read op, in order |
| `RowCache.SlicesFromPatches` | landshark/dataprocess.py:134-144 | there are no slices exactly when there are no read ops |
| `RowCache.SlicesCoverRowsRead` | landshark/dataprocess.py:134-144 | the union of the slices is exactly the set of rows the read ops read |
| `RowCache.SlicesSeparated` | landshark/dataprocess.py:134-144 | the slices are non-empty, in increasing order, and separated by at least one unread row |
| `RowCache.SliceStartsRead` | landshark/dataprocess.py:134-144 | every slice starts at a row some read op reads |
| `RowCache.StoreRows` | landshark/dataprocess.py:154-155 | the inner loop stores the slice's rows under `start`, `start + 1`, ... on top of the dictionary so far |
| `RowCache.GetRows` | landshark/dataprocess.py:147-156 | `_get_rows` builds the dictionary of every slice's rows, a later slice overwriting an earlier one |
| `RowCache.SliceEntries` | landshark/dataprocess.py:151-155 | one slice caches rows only under row numbers inside the slice |
| `RowCache.RowDict` | landshark/dataprocess.py:147-156 | only rows some slice covers become keys of the dictionary |
| `RowCache.SliceEntriesContents` | landshark/dataprocess.py:151-155 | one slice with a non-negative start caches exactly its rows that exist, each under its own row number |
| `RowCache.RowDictKeys` | landshark/dataprocess.py:147-156 | with non-negative starts, the keys are exactly the existing rows that some slice covers |
| `RowCache.RowDictValues` | landshark/dataprocess.py:147-156 | with non-negative starts, key i maps to row i of the array |
| `RowCache.ApplyReadsCongruent` | landshark/dataprocess.py:113-114 | two sources that fetch the same values for every read op give the same reads |
| `RowCache.CachedFetchMatchesDirect` | landshark/dataprocess.py:114 | for a read op on an existing row, `row_dict[y][x]` equals `array[y, x]`, so the cache never misses a key |
| `RowCache.CachedFetchesMatchDirect` | landshark/dataprocess.py:114 | when every read op reads an existing row, each op fetches the same value from the cache as from the array |
| `RowCache.AssembleCongruent` | landshark/dataprocess.py:76-91 | two sources that fetch the same value for every read op assemble the same patches |
| `RowCache.CachedMatchesDirect` | landshark/dataprocess.py:200-210 | when every read op reads an existing row, `_cached_read` over `_get_rows(_slices_from_patches(reads))` returns exactly what `_direct_read` returns, data and mask |
| `DataProcess.IsliceBatched` | landshark/dataprocess.py:316-322 | each yielded batch is a prefix of its input batch. The output concatenates to the first `n` rows of the input, and nothing is yielded when `n <= 0`. It raises RuntimeError exactly when the input has fewer than `n` rows |
| `DataProcess.PatchWidth` | landshark/dataprocess.py:173 | `2*halfwidth + 1` squared is the patch size, and it is positive exactly when the halfwidth is non-negative |
| `DataProcess.TrainingArrays` | landshark/dataprocess.py:172-182 | succeeds exactly when each present array reads directly without error, and then holds a patch array for exactly the present arrays. The continuous array's error is raised first, and every error is IndexError |
| `DataProcess.QueryArrays` | landshark/dataprocess.py:200-217 | succeeds exactly when each present array reads through its cache without error, and then holds a patch array for exactly the present arrays. The continuous array's error is raised first, and every error is IndexError or KeyError |
| `DataProcess.ProcessTraining` | landshark/dataprocess.py:172-182 | reads each present array directly; the continuous array's error comes first |
| `DataProcess.ProcessQuery` | landshark/dataprocess.py:200-217 | caches the rows read per present array, then reads through the cache |
| `DataProcess.QueryMatchesTraining` | landshark/dataprocess.py:200-217 | when every read op reads an existing row of each array, the query path builds exactly the patch arrays the training path builds |
| `DataProcess.DirectPatchesShape` | landshark/dataprocess.py:80-85 | a successful direct read has `npatches*(2*halfwidth + 1)^2` cells of `nfeatures` values |
| `DataProcess.TrainingShapes` | landshark/dataprocess.py:174-182 | a successful training read has patches for exactly the present arrays, each of shape (npatches, pw, pw, nfeatures) |

## Left out

- landshark/image.py and landshark/patch.py are not part of this model. `world_to_image`, `image_to_world` and `patch.patches` are not modelled, so the read and mask op lists and the number of points are inputs.
- The orchestration in landshark/dataprocess.py is I/O and process pools, and is not modelled:
  - `write_trainingdata`, `write_querydata`, `read_query_hdf5`;
  - the worker classes and the lazily opened `H5Features`;
  - `serialise`, `dataarrays_to_xdata` and the multiprocessing task lists.
- The `DataArrays` that `_process_training`/`_process_query` return also carry targets, coordinates and indices. These come from the coordinate conversions, which are not modelled, so only the two patch arrays are.
- `DataProcess.Present`: an `H5Features` array is taken to test false exactly when it is absent or has no rows. Its `__bool__`/`__len__` is in landshark/hread.py, which is not part of this model.
- landshark/hread.py, the command line scripts, the TensorFlow model (all of landshark/model.py except `patch_slices`) and configs/sklearn_rfc.py are not part of this model.
- TFRecord serialisation, the zlib options and flushing are not modelled. A written file is the list of its records.
- `os.path.getsize` is the caller's oracle `sizeOf`, applied to the records written to the current file.
- `os.makedirs` of the testing directory is not modelled: it touches only the file system.
- `TfWrite.MultiFileWriter.Add`: requires that the current handle is not closed. Writing to a closed TFRecord writer is the TensorFlow library's behaviour, which is not modelled. The `training` and `query` loops never do it.
- `TfWrite.MultiFileWriter.Add`: an IndexError raised part way through the `training` loop leaves the writers as they were after the previous batch. The files that stay open are not modelled further.
- The file path is kept as its parts (directory, tag, index), and `FileRef.Path` spells it out as `os.path.join`. Path normalisation beyond `join` is not modelled.
- Random numbers: how numpy's Mersenne Twister turns a seed into integers is not modelled. The generator is an arbitrary stream of draws.
- `KFold.DrawAllowed`: the retry loop ends only with probability one. Its termination is proved for fair streams only.
- `KFold.KFolder.GenerateFolds`: the test's statistical expectation that every label 1..K shows up in a large batch is not a property of every stream, and is not stated.
- `Util.MbToPoints`: floating point is modelled as exact real arithmetic. The contract states the `>= 1` lower bound and the rounding, not the exact float result.
- `Util.MbToRows`: floating point is modelled as exact real arithmetic. The contract states the `>= 1` lower bound and the rounding, not the exact float result.
- `Util.PointMegabytes`: the element sizes are those of float32 and int32 features and float64 coordinates.
- Version skew:
  - landshark/util.py imports `ContinuousType`, which landshark/basetypes.py no longer defines.
  - `write_trainingdata` calls `tfwrite.training` with four arguments, where `training` takes five.
  Each file is modelled as written, and `training` takes data and folds separately.
- numpy broadcasting is not modelled: the value a read op copies is taken to have the array's `nfeatures` values (`SourceShaped` states this where the shape lemmas need it).
- `RowCache.CachedMatchesDirect`: requires every read op's row to lie in `[0, rows)`. A negative row behaves differently on the two paths:
  - `_direct_read` counts it from the end of the array;
  - `_get_rows` never caches it, so `_cached_read` raises KeyError.
  A row past the end raises on both paths, IndexError on one and KeyError on the other.
- `RowCache.AsRange`: requires a non-empty group. `groupby` never yields an empty one.
- `KFold.BlockedKFolder.constructor`: requires a block size that gives a grid. The ZeroDivisionError of a zero block size and the ValueError of a negative grid side are returned by `KFold.NewBlockedKFolder`, which models the construction with its errors.
- `BaseTypes.ArraySource.ArraySlice`: models the array-backed sources, whose `_arrayslice` is `array[start:stop]`. In the base class it raises NotImplementedError, and the `H5Targets` source returns a pair of data and coordinates; neither is modelled.
- `DataProcess.IsliceBatched`: the generator's laziness is not modelled. It is run to completion over a finite list of batches, and the RuntimeError stands for the `StopIteration` of an exhausted input.
- `DataProcess.IsliceBatched`: a batch is a list of rows, and `arr[:n, :]` is taken as its first `n` rows.
