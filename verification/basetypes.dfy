/**
 * The base reader types (landshark/basetypes.py): the identity reader and
 * worker, `FixedSlice`, and `ArraySource`, whose slice access is only allowed
 * while the source is open (inside its context manager).
 */
module BaseTypes {
  import opened Py

  /** A half-open row interval `[start, stop)`. */
  datatype FixedSlice = FixedSlice(start: int, stop: int)

  /** Row `i` lies in `[start, stop)`. */
  predicate InSlice(s: FixedSlice, i: int)
  {
    s.start <= i < s.stop
  }

  /** `IdReader.__call__`: hands its index through. */
  function IdReader<T>(index: T): (r: T)
    ensures r == index
  {
    index
  }

  /** `IdWorker.__call__`: hands its input through. */
  function IdWorker<T>(x: T): (r: T)
    ensures r == x
  {
    x
  }

  /**
   * `ArraySource`: row-sliceable data with a shape, a missing-value marker and
   * column names. The rows a concrete source slices (an HDF5 array in the
   * subclasses) are the field `rows`.
   */
  class ArraySource<V> {
    var shape: seq<int>
    var native: int
    var missing: Option<V>
    var columns: seq<string>
    var isOpen: bool
    var rows: seq<seq<V>>

    constructor ()
      ensures shape == [0, 0] && native == 0 && missing == None && columns == []
      ensures !isOpen && rows == []
    {
      shape := [0, 0];
      native := 0;
      missing := None;
      columns := [];
      isOpen := false;
      rows := [];
    }

    /**
     * `_arrayslice(start, stop)` as the array-backed sources implement it:
     * `array[start:stop]` over the source's rows.
     */
    function ArraySlice(start: int, stop: int): (r: seq<seq<V>>)
      reads this
      ensures 0 <= start <= stop <= |rows| ==> r == rows[start..stop]
    {
      Slice(rows, start, stop)
    }

    /** `__call__`: the rows of `s`, or RuntimeError outside the context manager. */
    method Call(s: FixedSlice) returns (r: Result<seq<seq<V>>, Exception>)
      ensures !isOpen ==> r == Failure(RuntimeError)
      ensures isOpen ==> r == Success(ArraySlice(s.start, s.stop))
      ensures isOpen && 0 <= s.start <= s.stop <= |rows| ==> r.Success? && |r.value| == s.stop - s.start
    {
      if !isOpen {
        r := Failure(RuntimeError);
      } else {
        r := Success(ArraySlice(s.start, s.stop));
      }
    }

    /** `__enter__`. */
    method Enter()
      modifies this
      ensures isOpen
      ensures shape == old(shape) && native == old(native) && missing == old(missing)
      ensures columns == old(columns) && rows == old(rows)
    {
      isOpen := true;
    }

    /** `__exit__`. */
    method Exit()
      modifies this
      ensures !isOpen
      ensures shape == old(shape) && native == old(native) && missing == old(missing)
      ensures columns == old(columns) && rows == old(rows)
    {
      isOpen := false;
    }

    /** `__len__`: the first dimension of the shape. */
    function Len(): (r: Result<int, Exception>)
      reads this
      ensures |shape| > 0 <==> r.Success?
      ensures r.Success? ==> r.value == shape[0]
    {
      if |shape| == 0 then Failure(IndexError) else Success(shape[0])
    }

    /** `with source: source(s)`: a read inside the context manager always succeeds, and leaves the source closed. */
    method ScopedRead(s: FixedSlice) returns (r: Result<seq<seq<V>>, Exception>)
      modifies this
      ensures r == Success(Slice(old(rows), s.start, s.stop))
      ensures !isOpen && rows == old(rows) && shape == old(shape) && missing == old(missing)
      ensures native == old(native) && columns == old(columns)
    {
      Enter();
      r := Call(s);
      Exit();
    }
  }
}
