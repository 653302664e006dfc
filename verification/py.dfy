/**
 * Python and numpy semantics that the modelled code relies on: optional
 * values, raised exceptions, slicing, `range`, integer indexing and `round`.
 */
module Py {

  datatype Option<+T> = None | Some(value: T)

  /** The value of an expression that either returns or raises. */
  datatype Result<+T, +E> = Success(value: T) | Failure(error: E)

  /** A statement that either completes or raises. */
  datatype Outcome<+E> = Pass | Fail(error: E)

  /** The Python exceptions the modelled code can raise. */
  datatype Exception =
    | IndexError
    | KeyError
    | RuntimeError
    | ValueError
    | ZeroDivisionError

  function Min(a: int, b: int): int { if a <= b then a else b }

  function Max(a: int, b: int): int { if a <= b then b else a }

  /** A bound of `s[start:stop]`, normalised as Python does for a sequence of length `len`. */
  function SliceBound(i: int, len: nat): (b: nat)
    ensures b <= len
    ensures 0 <= i ==> b == Min(i, len)
    ensures i < 0 ==> b == Max(0, i + len)
  {
    if i < 0 then (if i + len < 0 then 0 else i + len)
    else if i > len then len
    else i
  }

  /** `s[start:stop]`: negative bounds count from the end, bounds past the end are clamped. */
  function Slice<T>(s: seq<T>, start: int, stop: int): (r: seq<T>)
    ensures 0 <= start <= stop ==> r == s[Min(start, |s|)..Min(stop, |s|)]
    ensures |r| <= |s|
  {
    var lo := SliceBound(start, |s|);
    var hi := SliceBound(stop, |s|);
    if lo < hi then s[lo..hi] else []
  }

  /** `a // b`: the quotient rounded toward negative infinity, whatever the signs. */
  function FloorDiv(a: int, b: int): (q: int)
    requires b != 0
    ensures b > 0 ==> q * b <= a < q * b + b
    ensures b < 0 ==> q * b + b < a <= q * b
  {
    if b > 0 then a / b
    else
      var q := (-a) / (-b);
      assert -a == (-b) * q + (-a) % (-b);
      q
  }

  /** `i` used as an index into a sequence of length `len`: negative indices count from the end. */
  function Index(i: int, len: nat): (r: Result<nat, Exception>)
    ensures r.Success? <==> -(len as int) <= i < len
    ensures r.Success? ==> r.value < len && (r.value as int - i) % len == 0
  {
    if 0 <= i < len then Success(i)
    else if -(len as int) <= i < 0 then Success(i + len)
    else Failure(IndexError)
  }

  /** `range(start, stop, step)` for a positive step. */
  function Range(start: int, stop: int, step: int): seq<int>
    requires step > 0
    decreases stop - start
  {
    if start >= stop then [] else [start] + Range(start + step, stop, step)
  }

  /** A range whose length is a multiple of its step holds exactly the multiples. */
  lemma {:induction false} RangeOfMultiple(start: int, step: int, n: int)
    requires step > 0
    ensures n <= 0 ==> Range(start, start + n * step, step) == []
    ensures n >= 0 ==> Range(start, start + n * step, step) == seq(n, k => start + k * step)
    decreases if n < 0 then 0 else n
  {
    if n <= 0 {
      assert start + n * step <= start;
    } else {
      calc {
        start + n * step;
        (start + step) + (n - 1) * step;
      }
      RangeOfMultiple(start + step, step, n - 1);
      var tail := Range(start + step, start + n * step, step);
      assert tail == seq(n - 1, k => start + step + k * step);
      assert Range(start, start + n * step, step) == [start] + tail;
      forall k | 0 <= k < n
        ensures ([start] + tail)[k] == start + k * step
      {
        if k > 0 {
          assert ([start] + tail)[k] == tail[k - 1] == start + step + (k - 1) * step;
        }
      }
    }
  }

  /**
   * Python's `round` on a number: the nearest integer, ties going to the
   * even neighbour.
   */
  function Round(x: real): (r: int)
    ensures x - 0.5 <= r as real <= x + 0.5
  {
    var f := x.Floor;
    var d := x - f as real;
    if d < 0.5 then f
    else if d > 0.5 then f + 1
    else if f % 2 == 0 then f
    else f + 1
  }

  function MaxReal(a: real, b: real): real { if a <= b then b else a }
}
